/** What each step of a run does to the service, said of the worlds before and after it. */
module LifecycleSteps {
  import opened Basics
  import opened Policies
  import opened HealthRules
  import opened HealthLaws
  import opened LifecycleProtocol
  import opened LifecycleSafety
  import opened LifecycleRuns

  predicate IsLive(s: System) {
    s.record.Some? && s.record.value in s.live
  }

  /** The name is shown as coming up, up or healthy. */
  predicate IsUp(c: Cell) {
    || IsStateOf(c, Starting) || IsStateOf(c, Running) || IsStateOf(c, Healthy)
    || (c.rt.Some? && c.rt.value.health == HealthHealthy && !IsDown(c))
  }

  /** The continuation at `k` is over, and that is all. */
  predicate OnlyEnds(s: System, t: System, k: nat) {
    t == s.(tasks := s.tasks - {k})
  }

  predicate OnlyBecomes(s: System, t: System, k: nat, task: Task) {
    t == s.(tasks := s.tasks[k := task])
  }

  /** All pending continuations but the one at `k` are still there. */
  predicate OthersStay(s: System, t: System, k: nat) {
    forall j :: j in s.tasks && j != k ==> j in t.tasks && t.tasks[j] == s.tasks[j]
  }

  predicate SameProcesses(s: System, t: System) {
    t.record == s.record && t.live == s.live && t.dead == s.dead && t.spawned == s.spawned
  }

  /** `task` is pending now, and was not before. */
  ghost predicate IsAdded(s: System, t: System, task: Task) {
    exists j :: j !in s.tasks && j in t.tasks && t.tasks[j] == task
  }

  // Starting.

  /** Nothing happens to a name that is up; another gets a new epoch and is starting in it. */
  ghost predicate StartLaw(s: System, t: System, hooks: bool) {
    if IsLive(s) || IsUp(s.cell) then t == s
    else
      && t.cell == s.cell.(gen := t.cell.gen, healthy := 0, ready := false, rt := t.cell.rt)
      && t.cell.gen > s.cell.gen && ShownAs(s.cell, t.cell, Starting)
      && SameProcesses(s, t) && OthersStay(s, t, s.nextTask) && IsAdded(s, t, Preparing(t.cell.gen, hooks))
  }

  /** A start that is outdated ends. A live process on record is handed over, and otherwise one is to be spawned. */
  predicate BeginSpawnLaw(s: System, t: System, k: nat) {
    k in s.tasks && s.tasks[k].Preparing? &&
    var g, hooks := s.tasks[k].gen, s.tasks[k].hooks;
    if s.cell.gen != g then OnlyEnds(s, t, k)
    else if IsLive(s) then OnlyBecomes(s, t, k, Spawned(g, hooks, s.record.value))
    else OnlyBecomes(s.(record := None), t, k, Spawning(g, hooks))
  }

  /** A new process of the start's epoch is live and on record, unless a live one is there already. */
  ghost predicate SpawnLaw(s: System, t: System, k: nat) {
    k in s.tasks && s.tasks[k].Spawning? &&
    var g, hooks := s.tasks[k].gen, s.tasks[k].hooks;
    if IsLive(s) then OnlyBecomes(s, t, k, Spawned(g, hooks, s.record.value))
    else exists h: Handle ::
      && h.epoch == g && h !in s.live && h !in s.dead
      && t.record == Some(h) && t.live == s.live + {h} && t.dead == s.dead && t.cell == s.cell
      && t.tasks == s.tasks[k := Spawned(g, hooks, h)]
  }

  /** A launched service is watched and probed, or counts as healthy; startOne returns, or waits for health. */
  ghost predicate LaunchLaw(svc: Service, c: Cell, s: System, t: System, k: nat, g: nat) {
    && SameProcesses(s, t) && OthersStay(s, t, k)
    && (if svc.waitForHealthy then k in t.tasks && t.tasks[k] == AwaitHealthy(g) else k !in t.tasks)
    && (if svc.hasHealthCheck then t.cell == c.(watch := Some(g)) && IsAdded(s, t, Probe(g))
        else
          && t.cell == c.(watch := None, rt := t.cell.rt, ready := t.cell.ready)
          && (IsDown(c) ==> t.cell.rt == c.rt && t.cell.ready == c.ready)
          && (!IsDown(c) ==> ResultShown(c, t.cell, HealthHealthy) && (c.rt.Some? ==> t.cell.ready)))
  }

  /** Outdated, the start stops what it got if that is still on record; otherwise the service runs. */
  ghost predicate ResumeLaw(svc: Service, s: System, t: System, k: nat) {
    k in s.tasks && s.tasks[k].Spawned? &&
    var g, h := s.tasks[k].gen, s.tasks[k].h;
    if s.cell.gen != g then
      if s.record == Some(h) then OnlyBecomes(s, t, k, CleanupStop(Some(h))) else OnlyEnds(s, t, k)
    else if s.tasks[k].hooks then
      && ShownAs(s.cell, t.cell, Running)
      && t == s.(cell := s.cell.(rt := t.cell.rt), tasks := s.tasks[k := PostStart(g)])
    else exists c :: ShownAs(s.cell, c, Running) && c == s.cell.(rt := c.rt) && LaunchLaw(svc, c, s, t, k, g)
  }

  // Failing.

  /** The epoch ends as FAILED, and a stop aimed at what is on record is pending. */
  ghost predicate FailLaw(s: System, t: System) {
    && EndsAsFailed(s.cell, t.cell)
    && SameProcesses(s, t) && IsAdded(s, t, FailStop(s.record))
    && (IsLive(t) || IsUp(t.cell) ==> IsLive(s))
  }

  /** The start at `k` has failed: the service fails, unless a start that threw was outdated. */
  ghost predicate FailedStartLaw(s: System, a: Action, t: System, k: nat) {
    k in s.tasks && IsStart(s.tasks[k]) &&
    if a.StartThrows? && s.tasks[k].gen != s.cell.gen then OnlyEnds(s, t, k)
    else FailLaw(s, t) && k !in t.tasks && OthersStay(s, t, k)
  }

  // Stopping.

  /** A stop plan ends the epoch and its timer. Only a manual one resets the count. */
  ghost predicate StopPlanLaw(s: System, t: System, reset: bool) {
    && t.cell == s.cell.(gen := t.cell.gen, timer := None, healthy := 0, ready := false, restarts := t.cell.restarts,
                         rt := t.cell.rt)
    && t.cell.gen > s.cell.gen
    && t.cell.restarts == (if reset then 0 else s.cell.restarts)
    && (if reset && s.cell.rt.Some? then t.cell.rt == Some(s.cell.rt.value.(restarts := 0)) else t.cell.rt == s.cell.rt)
    && SameProcesses(s, t) && OthersStay(s, t, s.nextTask) && IsAdded(s, t, PlanWaiting)
  }

  /** The plan stops what is on record when its wave comes. */
  predicate KillLaw(s: System, t: System, k: nat) {
    && ShownAs(s.cell, t.cell, Stopping)
    && t == s.(cell := s.cell.(watch := None, rt := t.cell.rt), tasks := s.tasks[k := PlanStopping(s.record)])
  }

  /** A stop that had a process to stop ends when that is not live, and takes what is on record off it. */
  predicate StopDoneLaw(s: System, t: System, k: nat) {
    k in s.tasks && IsStop(s.tasks[k]) &&
    (s.tasks[k].target.Some? ==> s.tasks[k].target.value !in t.live) &&
    var r := s.(record := if s.tasks[k].target.Some? then None else s.record);
    if s.tasks[k].PlanStopping? then OnlyBecomes(r, t, k, PlanReleasing) else OnlyEnds(r, t, k)
  }

  /** A stop plan that cannot stop a process shows the service as failed; other stops just end. */
  predicate StopFailsLaw(s: System, t: System, k: nat) {
    k in s.tasks && IsStop(s.tasks[k]) &&
    if s.tasks[k].PlanStopping? then
      ShownAs(s.cell, t.cell, Failed) && OnlyEnds(s.(cell := s.cell.(rt := t.cell.rt)), t, k)
    else OnlyEnds(s, t, k)
  }

  predicate ReleasedLaw(s: System, t: System, k: nat) {
    ShownAs(s.cell, t.cell, Stopped) && OnlyEnds(s.(cell := s.cell.(rt := t.cell.rt)), t, k)
  }

  // Exits, timers, probes.

  /** The exit is handled by the rule, the process is on record no more, and a failure stops what is. */
  ghost predicate DeliverLaw(configured: Option<Service>, s: System, t: System, h: Handle, code: int) {
    exists outcome ::
      && ExitLaw(s.cell, configured, h.epoch, code, t.cell, outcome)
      && t.live == s.live && t.dead == s.dead - {h} && t.record == (if s.record == Some(h) then None else s.record)
      && OthersStay(s, t, s.nextTask)
      && (if outcome == FailedNow then IsAdded(s, t, FailStop(t.record)) else t.tasks == s.tasks)
  }

  /**
   A timer of an older epoch, or of a name without configuration, does nothing. A crash is followed
   by a start, a streak by a stop plan.
   */
  ghost predicate TimerLaw(s: System, t: System, configured: bool) {
    s.cell.timer.Some? &&
    var timer, r := s.cell.timer.value, s.(cell := s.cell.(timer := None));
    if timer.gen != s.cell.gen || !configured then t == r
    else if timer.cause == Crash then StartLaw(r, t, false)
    else StopPlanLaw(r, t, false)
  }

  ghost predicate ProbeStepLaw(svc: Service, s: System, t: System, k: nat, health: Health, inGrace: bool) {
    k in s.tasks && s.tasks[k].Probe? &&
    OnlyEnds(s.(cell := t.cell), t, k) &&
    exists effect :: ProbeLaw(s.cell, svc, s.tasks[k].gen, health, inGrace, t.cell, effect)
  }

  ghost predicate StepLaw(svc: Service, s: System, a: Action, t: System) {
    match a
    case EnterStart(hooks) => StartLaw(s, t, hooks)
    case BeginSpawn(k) => BeginSpawnLaw(s, t, k)
    case Spawn(k) => SpawnLaw(s, t, k)
    case StartThrows(k) => FailedStartLaw(s, a, t, k)
    case Resume(k) => ResumeLaw(svc, s, t, k)
    case HookDone(k, ok) =>
      if !ok then FailedStartLaw(s, a, t, k)
      else if k in s.tasks && s.tasks[k] == PostStart(s.cell.gen) then LaunchLaw(svc, s.cell, s, t, k, s.cell.gen)
      else OnlyEnds(s, t, k)
    case WaitOver(k, ok) =>
      if ok then s.cell.rt.Some? && s.cell.rt.value.health == HealthHealthy && OnlyEnds(s, t, k)
      else FailedStartLaw(s, a, t, k)
    case FailRequested => FailLaw(s, t) && OthersStay(s, t, s.nextTask)
    case EnterStop(reset) => StopPlanLaw(s, t, reset)
    case PlanKill(k) => KillLaw(s, t, k)
    case StopDone(k) => StopDoneLaw(s, t, k)
    case StopFails(k) => StopFailsLaw(s, t, k)
    case Released(k) => ReleasedLaw(s, t, k)
    case Die(h) => t == s.(live := s.live - {h}, dead := s.dead + {h})
    case DeliverExit(h, code, configured) => DeliverLaw(if configured then Some(svc) else None, s, t, h, code)
    case Tick =>
      s.cell.watch.Some? && t.cell == s.cell && SameProcesses(s, t)
      && OthersStay(s, t, s.nextTask) && IsAdded(s, t, Probe(s.cell.watch.value))
    case ProbeDone(k, health, inGrace) => ProbeStepLaw(svc, s, t, k, health, inGrace)
    case TimerFires(configured) => TimerLaw(s, t, configured)
    case ResetBudget =>
      && t == s.(cell := s.cell.(restarts := 0, healthy := 0, rt := t.cell.rt))
      && (s.cell.rt.Some? ==> t.cell.rt == Some(s.cell.rt.value.(restarts := 0)))
      && (s.cell.rt.None? ==> t.cell.rt == None)
    case ForgetName =>
      t.cell.gen > s.cell.gen && t == s.(cell := Cell(t.cell.gen, 0, 0, 0, false, None, None, None))
    case Appear =>
      && s.cell.rt == None
      && t == s.(cell := s.cell.(rt := Some(Runtime(Stopped, HealthUnknown, 0))))
  }

  lemma UpExactly(c: Cell, onRecord: bool)
    ensures c.Active(onRecord) <==> onRecord || IsUp(c)
  {
    ActiveExactly(c, onRecord);
  }

  lemma AddedLast(s: System, t: System, task: Task)
    requires Good(s) && t.tasks == s.tasks[s.nextTask := task]
    ensures IsAdded(s, t, task) && OthersStay(s, t, s.nextTask)
  {
    assert s.nextTask !in s.tasks;
  }

  lemma StartObeys(s: System, hooks: bool)
    requires Good(s)
    ensures StartLaw(s, s.Start(hooks), hooks)
  {
    UpExactly(s.cell, s.Running());
    var t := s.Start(hooks);
    if t != s {
      AddedLast(s, t, Preparing(t.cell.gen, hooks));
    }
  }

  lemma StopPlanObeys(s: System, reset: bool)
    requires Good(s)
    ensures StopPlanLaw(s, s.StopPlan(reset), reset)
  {
    AddedLast(s, s.StopPlan(reset), PlanWaiting);
  }

  lemma FailObeys(s: System, r: System, k: nat)
    requires Good(s) && r == s.(tasks := s.tasks - {k}) && (k in s.tasks || k == s.nextTask)
    ensures FailLaw(s, r.FailNow()) && OthersStay(s, r.FailNow(), k) && (k in s.tasks ==> k !in r.FailNow().tasks)
  {
    var t := r.FailNow();
    FailExactly(s.cell);
    assert s.nextTask !in s.tasks && t.tasks[s.nextTask] == FailStop(s.record);
  }

  lemma LaunchObeys(svc: Service, s: System, c: Cell, k: nat, g: nat)
    requires Good(s) && k in s.tasks && c.gen == g
    ensures LaunchLaw(svc, c, s, s.(cell := c).AfterLaunch(svc, k, g), k, g)
  {
    var r := s.(cell := c);
    var t := r.AfterLaunch(svc, k, g);
    StartHealthExactly(c, svc, g);
    assert s.nextTask !in s.tasks;
    if svc.hasHealthCheck {
      assert t.tasks[s.nextTask] == Probe(g);
    }
  }

  lemma StartingObeys(svc: Service, s: System, a: Action)
    requires Good(s) && Enabled(s, a) && (a.EnterStart? || a.BeginSpawn? || a.StartThrows?)
    ensures StepLaw(svc, s, a, Next(svc, s, a))
  {
    match a
    case EnterStart(hooks) => StartObeys(s, hooks);
    case BeginSpawn(k) =>
    case StartThrows(k) => FailObeys(s, s.Done(k), k);
  }

  lemma SpawnObeys(svc: Service, s: System, a: Action)
    requires Good(s) && Enabled(s, a) && a.Spawn?
    ensures StepLaw(svc, s, a, Next(svc, s, a))
  {
    var h := Handle(s.spawned, s.tasks[a.k].gen);
    assert h !in s.live && h !in s.dead;
  }

  lemma ResumeObeys(svc: Service, s: System, a: Action)
    requires Good(s) && Enabled(s, a) && a.Resume?
    ensures StepLaw(svc, s, a, Next(svc, s, a))
  {
    var g := s.tasks[a.k].gen;
    if s.cell.gen == g && !s.tasks[a.k].hooks {
      var c := s.cell.SetState(Running, HealthUnknown);
      LaunchObeys(svc, s, c, a.k, g);
      assert ShownAs(s.cell, c, Running) && c == s.cell.(rt := c.rt);
    }
  }

  lemma WaitsObey(svc: Service, s: System, a: Action)
    requires Good(s) && Enabled(s, a) && (a.HookDone? || a.WaitOver?)
    ensures StepLaw(svc, s, a, Next(svc, s, a))
  {
    if !a.ok {
      FailObeys(s, s.Done(a.k), a.k);
    } else if a.HookDone? && s.tasks[a.k].gen == s.cell.gen {
      LaunchObeys(svc, s, s.cell, a.k, s.cell.gen);
      assert s.(cell := s.cell) == s;
    }
  }

  lemma StoppingObeys(svc: Service, s: System, a: Action)
    requires Good(s) && Enabled(s, a) && StopSide(a)
    ensures StepLaw(svc, s, a, Next(svc, s, a))
  {
    match a
    case FailRequested =>
      assert s.tasks - {s.nextTask} == s.tasks;
      FailObeys(s, s, s.nextTask);
    case EnterStop(reset) => StopPlanObeys(s, reset);
    case _ =>
  }

  lemma ExitObeys(svc: Service, s: System, a: Action)
    requires Good(s) && Enabled(s, a) && a.DeliverExit?
    ensures StepLaw(svc, s, a, Next(svc, s, a))
  {
    var configured := if a.configured then Some(svc) else None;
    var (c, outcome) := s.cell.OnExit(configured, a.h.epoch, a.code);
    ExitExactly(s.cell, configured, a.h.epoch, a.code);
    var t := Next(svc, s, a);
    if outcome == FailedNow {
      AddedLast(s, t, FailStop(t.record));
    }
  }

  lemma TimerObeys(svc: Service, s: System, a: Action)
    requires Good(s) && Enabled(s, a) && a.TimerFires?
    ensures StepLaw(svc, s, a, Next(svc, s, a))
  {
    var r := s.(cell := s.cell.(timer := None));
    CellGood(s, r.cell);
    StartObeys(r, false);
    StopPlanObeys(r, false);
  }

  lemma ProbesObey(svc: Service, s: System, a: Action)
    requires Good(s) && Enabled(s, a) && (a.Tick? || a.ProbeDone?)
    ensures StepLaw(svc, s, a, Next(svc, s, a))
  {
    match a
    case Tick => AddedLast(s, Next(svc, s, a), Probe(s.cell.watch.value));
    case ProbeDone(k, health, inGrace) => ProbeExactly(s.cell, svc, s.tasks[k].gen, health, inGrace);
  }

  lemma RestObeys(svc: Service, s: System, a: Action)
    requires Good(s) && Enabled(s, a) && (a.Die? || a.ResetBudget? || a.ForgetName? || a.Appear?)
    ensures StepLaw(svc, s, a, Next(svc, s, a))
  {
    ForgetExactly(s.cell);
  }

  lemma StepObeys(svc: Service, s: System, a: Action)
    requires Good(s) && Enabled(s, a)
    ensures StepLaw(svc, s, a, Next(svc, s, a))
  {
    if a.Spawn? {
      SpawnObeys(svc, s, a);
    } else if a.Resume? {
      ResumeObeys(svc, s, a);
    } else if a.HookDone? || a.WaitOver? {
      WaitsObey(svc, s, a);
    } else if StartSide(a) {
      StartingObeys(svc, s, a);
    } else if StopSide(a) {
      StoppingObeys(svc, s, a);
    } else if a.DeliverExit? {
      ExitObeys(svc, s, a);
    } else if a.TimerFires? {
      TimerObeys(svc, s, a);
    } else if a.Tick? || a.ProbeDone? {
      ProbesObey(svc, s, a);
    } else {
      RestObeys(svc, s, a);
    }
  }

  /** Every step of every run does what its law says. */
  lemma EveryStepObeys(svc: Service, worlds: seq<World>, actions: seq<Action>, i: nat)
    requires Run(svc, worlds, actions) && i < |actions|
    ensures StepLaw(svc, worlds[i].sys, actions[i], worlds[i + 1].sys)
  {
    InvariantAt(svc, worlds, actions, i);
    assert Step(svc, worlds[i], actions[i], worlds[i + 1]);
    StepObeys(svc, worlds[i].sys, actions[i]);
  }

  /**
   Whatever a pending continuation waits for may come, with either outcome; only a stop waits for
   its process to be gone.
   */
  lemma EveryOutcomeIsPossible(s: System, k: nat, health: Health, inGrace: bool)
    requires k in s.tasks
    ensures match s.tasks[k]
      case Preparing(_, _) => Enabled(s, BeginSpawn(k)) && Enabled(s, StartThrows(k))
      case Spawning(_, _) => Enabled(s, Spawn(k)) && Enabled(s, StartThrows(k))
      case Spawned(_, _, _) => Enabled(s, Resume(k))
      case PostStart(_) => Enabled(s, HookDone(k, true)) && Enabled(s, HookDone(k, false))
      case AwaitHealthy(_) =>
        Enabled(s, WaitOver(k, false))
        && (Enabled(s, WaitOver(k, true)) <==> s.cell.rt.Some? && s.cell.rt.value.health == HealthHealthy)
      case PlanWaiting => Enabled(s, PlanKill(k))
      case PlanReleasing => Enabled(s, Released(k))
      case Probe(_) => Enabled(s, ProbeDone(k, health, inGrace))
      case _ =>
        && (Enabled(s, StopFails(k)) <==> s.tasks[k].target.Some?)
        && (Enabled(s, StopDone(k)) <==> s.tasks[k].target.None? || s.tasks[k].target.value !in s.live)
  {
  }

  /** What comes from outside may come at any time. */
  lemma AnythingMayCome(s: System, h: Handle, flag: bool, code: int)
    ensures Enabled(s, EnterStart(flag)) && Enabled(s, EnterStop(flag)) && Enabled(s, FailRequested)
    ensures Enabled(s, ResetBudget) && Enabled(s, ForgetName) && (Enabled(s, Appear) <==> s.cell.rt.None?)
    ensures (Enabled(s, Die(h)) <==> h in s.live) && (Enabled(s, DeliverExit(h, code, flag)) <==> h in s.dead)
    ensures (Enabled(s, Tick) <==> s.cell.watch.Some?) && (Enabled(s, TimerFires(flag)) <==> s.cell.timer.Some?)
  {
  }

  // What follows from the laws.

  /** The task at `k` is a start of the current epoch, or one whose failure counts in any epoch. */
  ghost predicate FailsStart(s: System, a: Action, k: nat) {
    || a == HookDone(k, false) || a == WaitOver(k, false)
    || (a == StartThrows(k) && k in s.tasks && IsStart(s.tasks[k]) && s.tasks[k].gen == s.cell.gen)
  }

  /**
   A start that fails leaves a failed service in a new epoch, without timer or watch, and a stop of
   what is on record. The name is then active only if a live process is on record.
   */
  lemma FailedStartFails(svc: Service, worlds: seq<World>, actions: seq<Action>, i: nat, k: nat)
    requires Run(svc, worlds, actions) && i < |actions| && FailsStart(worlds[i].sys, actions[i], k)
    ensures var s, t := worlds[i].sys, worlds[i + 1].sys;
      && t.cell.gen > s.cell.gen && t.cell.timer == None && t.cell.watch == None
      && t.cell.rt.Some? && t.cell.rt.value.state == Failed && t.cell.rt.value.health == HealthUnknown
      && k in s.tasks && k !in t.tasks && (exists j :: j in t.tasks && t.tasks[j] == FailStop(s.record))
      && (t.cell.Active(t.Running()) ==> s.record.Some? && s.record.value in s.live)
  {
    EveryStepObeys(svc, worlds, actions, i);
    var s, t := worlds[i].sys, worlds[i + 1].sys;
    UpExactly(t.cell, t.Running());
    var j :| j !in s.tasks && j in t.tasks && t.tasks[j] == FailStop(s.record);
  }

  /** A start that throws after its epoch is over changes nothing but that it is over. */
  lemma OutdatedStartOnlyEnds(svc: Service, worlds: seq<World>, actions: seq<Action>, i: nat, k: nat)
    requires Run(svc, worlds, actions) && i < |actions| && actions[i] == StartThrows(k)
    requires k in worlds[i].sys.tasks && IsStart(worlds[i].sys.tasks[k])
    requires worlds[i].sys.tasks[k].gen != worlds[i].sys.cell.gen
    ensures worlds[i + 1].sys == worlds[i].sys.(tasks := worlds[i].sys.tasks - {k})
  {
    EveryStepObeys(svc, worlds, actions, i);
  }

  /** After a failed start the next one begins a new epoch, unless a live process is on record. */
  lemma FailedStartCanBeRepeated(svc: Service, worlds: seq<World>, actions: seq<Action>, i: nat, k: nat)
    requires Run(svc, worlds, actions) && i + 1 < |actions| && FailsStart(worlds[i].sys, actions[i], k)
    requires actions[i + 1].EnterStart? && !worlds[i].sys.Running()
    ensures var s, t := worlds[i + 1].sys, worlds[i + 2].sys;
      t.cell.gen > s.cell.gen && exists j :: j in t.tasks && t.tasks[j] == Preparing(t.cell.gen, actions[i + 1].hooks)
  {
    FailedStartFails(svc, worlds, actions, i, k);
    UpExactly(worlds[i + 1].sys.cell, worlds[i + 1].sys.Running());
    EveryStepObeys(svc, worlds, actions, i + 1);
    var s, t := worlds[i + 1].sys, worlds[i + 2].sys;
    var j :| j !in s.tasks && j in t.tasks && t.tasks[j] == Preparing(t.cell.gen, actions[i + 1].hooks);
  }

  // A crash that is restarted, from the death of one process to the next one running.

  ghost predicate CurrentProcess(s: System, h: Handle) {
    s.record == Some(h) && h in s.live && h.epoch == s.cell.gen
  }

  /** The exit of the process on record is one to restart from. */
  predicate CrashToRestart(svc: Service, s: System, code: int) {
    && !IsStateOf(s.cell, Failed) && !IsStateOf(s.cell, Stopping) && !IsStateOf(s.cell, Stopped)
    && ShouldRestart(svc, s.cell.restarts, code)
  }

  lemma CrashArms(svc: Service, s: System, d: System, t: System, h: Handle, code: int)
    requires CurrentProcess(s, h) && CrashToRestart(svc, s, code)
    requires d == s.(live := s.live - {h}, dead := s.dead + {h}) && DeliverLaw(Some(svc), d, t, h, code)
    ensures t.record == None && IsStateOf(t.cell, Restarting) && t.cell.gen == s.cell.gen
    ensures t.cell.restarts == s.cell.restarts + 1
    ensures t.cell.timer == Some(Timer(s.cell.gen, Crash, DelayMs(svc, s.cell.restarts)))
    ensures t.live == s.live - {h}
  {
  }

  lemma TimerStarts(s: System, t: System)
    requires TimerLaw(s, t, true) && s.record == None && IsStateOf(s.cell, Restarting)
    requires s.cell.timer.Some? && s.cell.timer.value.gen == s.cell.gen && s.cell.timer.value.cause == Crash
    ensures t.cell.gen > s.cell.gen && t.cell.restarts == s.cell.restarts && t.record == None && t.live == s.live
    ensures exists k :: k in t.tasks && t.tasks[k] == Preparing(t.cell.gen, false)
  {
    var r := s.(cell := s.cell.(timer := None));
    var k :| k !in r.tasks && k in t.tasks && t.tasks[k] == Preparing(t.cell.gen, false);
  }

  lemma SpawnsOwn(svc: Service, s: System, a: System, b: System, t: System, k: nat) returns (h: Handle)
    requires s.record == None && k in s.tasks && s.tasks[k] == Preparing(s.cell.gen, false)
    requires BeginSpawnLaw(s, a, k) && SpawnLaw(a, b, k) && ResumeLaw(svc, b, t, k)
    ensures h !in s.live && h !in s.dead && h.epoch == s.cell.gen && CurrentProcess(t, h)
    ensures t.cell.gen == s.cell.gen && t.cell.restarts == s.cell.restarts
    ensures IsStateOf(t.cell, Running) || IsStateOf(t.cell, Healthy)
  {
    h :| h.epoch == s.cell.gen && h !in a.live && h !in a.dead && b.record == Some(h) && b.live == a.live + {h};
  }

  lemma CrashThenTimer(svc: Service, s: System, s1: System, s2: System, s3: System, h: Handle, code: int)
    requires CurrentProcess(s, h) && CrashToRestart(svc, s, code)
    requires StepLaw(svc, s, Die(h), s1) && StepLaw(svc, s1, DeliverExit(h, code, true), s2)
    requires StepLaw(svc, s2, TimerFires(true), s3)
    ensures s3.cell.gen > s.cell.gen && s3.cell.restarts == s.cell.restarts + 1 && s3.record == None
    ensures s3.live == s.live - {h}
    ensures exists k :: k in s3.tasks && s3.tasks[k] == Preparing(s3.cell.gen, false)
  {
    CrashArms(svc, s, s1, s2, h, code);
    TimerStarts(s2, s3);
  }

  lemma StartGoesOn(svc: Service, s3: System, s4: System, s5: System, s6: System, k: nat, live: set<Handle>, h: Handle)
    returns (next: Handle)
    requires s3.record == None && s3.live == live && k in s3.tasks && s3.tasks[k] == Preparing(s3.cell.gen, false)
    requires StepLaw(svc, s3, BeginSpawn(k), s4) && StepLaw(svc, s4, Spawn(k), s5) && StepLaw(svc, s5, Resume(k), s6)
    requires h.epoch < s3.cell.gen
    ensures next !in live + {h} && CurrentProcess(s6, next) && s6.cell.gen == s3.cell.gen
    ensures s6.cell.restarts == s3.cell.restarts
    ensures IsStateOf(s6.cell, Running) || IsStateOf(s6.cell, Healthy)
  {
    next := SpawnsOwn(svc, s3, s4, s5, s6, k);
  }

  lemma LawAt(svc: Service, worlds: seq<World>, actions: seq<Action>, i: nat, s: System, a: Action, t: System)
    requires Run(svc, worlds, actions) && i < |actions| && s == worlds[i].sys && a == actions[i]
    requires t == worlds[i + 1].sys
    ensures StepLaw(svc, s, a, t)
  {
    EveryStepObeys(svc, worlds, actions, i);
  }

  /** The six steps from the death of the process to the start that has resumed. */
  ghost predicate CrashSteps(actions: seq<Action>, i: nat, h: Handle, code: int, k: nat)
    requires i + 6 <= |actions|
  {
    && actions[i] == Die(h) && actions[i + 1] == DeliverExit(h, code, true) && actions[i + 2] == TimerFires(true)
    && actions[i + 3] == BeginSpawn(k) && actions[i + 4] == Spawn(k) && actions[i + 5] == Resume(k)
  }

  /**
   A crash to restart from is followed by a new process: when the process has died and its exit was
   handled, the armed timer fires, and the start that this begins goes on, a process that was not
   there before is live and on record in a new epoch, shown as running, and the restart is counted.
   */
  lemma CrashedServiceComesBack(svc: Service, worlds: seq<World>, actions: seq<Action>, i: nat, k: nat, h: Handle,
                                code: int)
    returns (next: Handle)
    requires Run(svc, worlds, actions) && i + 6 <= |actions| && CrashSteps(actions, i, h, code, k)
    requires CurrentProcess(worlds[i].sys, h) && CrashToRestart(svc, worlds[i].sys, code)
    requires k in worlds[i + 3].sys.tasks && worlds[i + 3].sys.tasks[k] == Preparing(worlds[i + 3].sys.cell.gen, false)
    ensures var s, t := worlds[i].sys, worlds[i + 6].sys;
      && next !in s.live && CurrentProcess(t, next) && t.cell.gen > s.cell.gen && t.cell.restarts == s.cell.restarts + 1
      && (IsStateOf(t.cell, Running) || IsStateOf(t.cell, Healthy))
  {
    var s0, s1, s2, s3 := worlds[i].sys, worlds[i + 1].sys, worlds[i + 2].sys, worlds[i + 3].sys;
    var s4, s5, s6 := worlds[i + 4].sys, worlds[i + 5].sys, worlds[i + 6].sys;
    LawAt(svc, worlds, actions, i, s0, Die(h), s1);
    LawAt(svc, worlds, actions, i + 1, s1, DeliverExit(h, code, true), s2);
    LawAt(svc, worlds, actions, i + 2, s2, TimerFires(true), s3);
    CrashThenTimer(svc, s0, s1, s2, s3, h, code);
    LawAt(svc, worlds, actions, i + 3, s3, BeginSpawn(k), s4);
    LawAt(svc, worlds, actions, i + 4, s4, Spawn(k), s5);
    LawAt(svc, worlds, actions, i + 5, s5, Resume(k), s6);
    next := StartGoesOn(svc, s3, s4, s5, s6, k, s0.live - {h}, h);
  }

  // A stop, from its first step to its last.

  ghost predicate StopSteps(actions: seq<Action>, i: nat, h: Handle, code: int, configured: bool, reset: bool, k: nat)
    requires i + 6 <= |actions|
  {
    && actions[i] == EnterStop(reset) && actions[i + 1] == PlanKill(k) && actions[i + 2] == Die(h)
    && actions[i + 3] == DeliverExit(h, code, configured) && actions[i + 4] == StopDone(k)
    && actions[i + 5] == Released(k)
  }

  lemma KillThenExit(svc: Service, s1: System, s2: System, s3: System, s4: System, k: nat, h: Handle, code: int,
                     configured: bool)
    requires s1.record == Some(h) && h in s1.live && h.epoch < s1.cell.gen && s1.cell.timer == None
    requires StepLaw(svc, s1, PlanKill(k), s2) && StepLaw(svc, s2, Die(h), s3)
    requires StepLaw(svc, s3, DeliverExit(h, code, configured), s4)
    ensures s4.cell.gen == s1.cell.gen && s4.cell.timer == None && s4.cell.watch == None && IsStateOf(s4.cell, Stopping)
    ensures s4.record == None && s4.live == s1.live - {h} && k in s4.tasks && s4.tasks[k] == PlanStopping(Some(h))
  {
  }

  /**
   A stop brings the service down: when the plan has reached the name, the process has died, its
   exit was handled and the ports are released, the service is stopped in a new epoch, without
   timer or watch, the process is not live, and none is on record.
   */
  lemma StopBringsDown(svc: Service, worlds: seq<World>, actions: seq<Action>, i: nat, k: nat, h: Handle, code: int,
                       configured: bool, reset: bool)
    requires Run(svc, worlds, actions) && i + 6 <= |actions| && StopSteps(actions, i, h, code, configured, reset, k)
    requires CurrentProcess(worlds[i].sys, h)
    ensures var s, t := worlds[i].sys, worlds[i + 6].sys;
      && IsStateOf(t.cell, Stopped) && t.cell.gen > s.cell.gen && t.cell.timer == None && t.cell.watch == None
      && t.record == None && t.live == s.live - {h} && k !in t.tasks && !t.cell.Active(t.Running())
  {
    var s0, s1, s2, s3 := worlds[i].sys, worlds[i + 1].sys, worlds[i + 2].sys, worlds[i + 3].sys;
    var s4, s5, s6 := worlds[i + 4].sys, worlds[i + 5].sys, worlds[i + 6].sys;
    LawAt(svc, worlds, actions, i, s0, EnterStop(reset), s1);
    LawAt(svc, worlds, actions, i + 1, s1, PlanKill(k), s2);
    LawAt(svc, worlds, actions, i + 2, s2, Die(h), s3);
    LawAt(svc, worlds, actions, i + 3, s3, DeliverExit(h, code, configured), s4);
    KillThenExit(svc, s1, s2, s3, s4, k, h, code, configured);
    LawAt(svc, worlds, actions, i + 4, s4, StopDone(k), s5);
    LawAt(svc, worlds, actions, i + 5, s5, Released(k), s6);
    UpExactly(s6.cell, s6.Running());
  }
}
