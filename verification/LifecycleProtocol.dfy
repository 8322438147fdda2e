/**
 The life of one service name as a step system. Every action is one stretch of
 code between two awaits, or one thing the outside world does; any enabled
 action may come next. Names share no lifecycle state, so a stop plan or a start
 over several names is, for each name, one of these runs.
 */
module LifecycleProtocol {
  import opened Basics
  import opened Policies
  import opened HealthRules

  /** A spawned process: `epoch` is the generation whose start spawned it and which its exit callback holds. */
  datatype Handle = Handle(id: nat, epoch: nat)

  /** A continuation that is waiting for its await to finish. */
  datatype Task =
    | Preparing(gen: nat, hooks: bool)            // startOne: identity, environment, pre_start hook
    | Spawning(gen: nat, hooks: bool)             // inside the process runtime's start
    | Spawned(gen: nat, hooks: bool, h: Handle)   // a handle came back, startOne has not resumed
    | PostStart(gen: nat)                         // post_start hook
    | AwaitHealthy(gen: nat)                      // startOne of a wait_for_healthy service
    | CleanupStop(target: Option<Handle>)         // a stale start stops what it spawned
    | FailStop(target: Option<Handle>)            // fail() stops what is on record
    | PlanWaiting                                 // a stop plan that has not reached this name's wave
    | PlanStopping(target: Option<Handle>)
    | PlanReleasing                               // stopped, ports being released
    | Probe(gen: nat)

  predicate IsStart(t: Task) {
    t.Preparing? || t.Spawning? || t.Spawned? || t.PostStart? || t.AwaitHealthy?
  }

  predicate BeforeLaunch(t: Task) {
    t.Preparing? || t.Spawning? || t.Spawned?
  }

  predicate IsStop(t: Task) {
    t.CleanupStop? || t.FailStop? || t.PlanStopping?
  }

  datatype System = System(
    cell: Cell,
    record: Option<Handle>,
    live: set<Handle>,
    dead: set<Handle>,        // exited, exit callback not yet run
    spawned: nat,
    tasks: map<nat, Task>,
    nextTask: nat)
  {
    /** ProcessRuntime.isRunning: the handle on record is alive. */
    predicate Running() {
      record.Some? && record.value in live
    }

    predicate Has(k: nat) {
      k in tasks
    }

    function Add(t: Task): System {
      this.(tasks := tasks[nextTask := t], nextTask := nextTask + 1)
    }

    function Become(k: nat, t: Task): System {
      this.(tasks := tasks[k := t])
    }

    function Done(k: nat): System {
      this.(tasks := tasks - {k})
    }

    /** The synchronous head of startOne. */
    function Start(hooks: bool): System {
      if cell.Active(Running()) then this
      else
        var c := cell.SetState(Starting, HealthUnknown).Bump();
        this.(cell := c).Add(Preparing(c.gen, hooks))
    }

    /** The synchronous head of the host's fail(): it ends the epoch, then asks to stop whatever is on record. */
    function FailNow(): System {
      this.(cell := cell.Fail()).Add(FailStop(record))
    }

    /** runStopPlan up to its first await, for this name. */
    function StopPlan(reset: bool): System {
      var c := cell.(timer := None).Bump();
      this.(cell := if reset then c.ResetCount() else c).Add(PlanWaiting)
    }

    /** startOne after the post_start hook. */
    function AfterLaunch(svc: Service, k: nat, g: nat): System {
      if cell.gen != g then Done(k)
      else
        var s := this.(cell := cell.StartHealth(svc, g));
        var t := if svc.waitForHealthy then s.Become(k, AwaitHealthy(g)) else s.Done(k);
        if svc.hasHealthCheck then t.Add(Probe(g)) else t
    }
  }

  const Initial := System(Untracked, None, {}, {}, 0, map[], 0)

  datatype Action =
    | EnterStart(hooks: bool)
    | BeginSpawn(k: nat)
    | Spawn(k: nat)
    | StartThrows(k: nat)
    | Resume(k: nat)
    | HookDone(k: nat, ok: bool)
    | WaitOver(k: nat, ok: bool)
    | FailRequested
    | EnterStop(reset: bool)
    | PlanKill(k: nat)
    | StopDone(k: nat)
    | StopFails(k: nat)
    | Released(k: nat)
    | Die(h: Handle)
    | DeliverExit(h: Handle, code: int, configured: bool)
    | Tick
    | ProbeDone(k: nat, health: Health, inGrace: bool)
    | TimerFires(configured: bool)
    | ResetBudget
    | ForgetName
    | Appear

  predicate StartSide(a: Action) {
    a.EnterStart? || a.BeginSpawn? || a.Spawn? || a.StartThrows? || a.Resume? || a.HookDone? || a.WaitOver?
  }

  predicate StopSide(a: Action) {
    a.FailRequested? || a.EnterStop? || a.PlanKill? || a.StopDone? || a.StopFails? || a.Released?
  }

  predicate Enabled(s: System, a: Action) {
    match a
    case EnterStart(_) => true
    case BeginSpawn(k) => s.Has(k) && s.tasks[k].Preparing?
    case Spawn(k) => s.Has(k) && s.tasks[k].Spawning?
    case StartThrows(k) => s.Has(k) && (s.tasks[k].Preparing? || s.tasks[k].Spawning?)
    case Resume(k) => s.Has(k) && s.tasks[k].Spawned?
    case HookDone(k, _) => s.Has(k) && s.tasks[k].PostStart?
    case WaitOver(k, ok) =>
      s.Has(k) && s.tasks[k].AwaitHealthy? && (ok ==> s.cell.rt.Some? && s.cell.rt.value.health == HealthHealthy)
    case FailRequested => true
    case EnterStop(_) => true
    case PlanKill(k) => s.Has(k) && s.tasks[k].PlanWaiting?
    // A stop returns once the process group it signalled is empty, whatever is on record by then.
    case StopDone(k) =>
      s.Has(k) && IsStop(s.tasks[k]) && (s.tasks[k].target.None? || s.tasks[k].target.value !in s.live)
    case StopFails(k) => s.Has(k) && IsStop(s.tasks[k]) && s.tasks[k].target.Some?
    case Released(k) => s.Has(k) && s.tasks[k].PlanReleasing?
    case Die(h) => h in s.live
    case DeliverExit(h, _, _) => h in s.dead
    case Tick => s.cell.watch.Some?
    case ProbeDone(k, _, _) => s.Has(k) && s.tasks[k].Probe?
    case TimerFires(_) => s.cell.timer.Some?
    case ResetBudget => true
    // A reload forgets inactive names, a stop forgets its orphans whatever became of them meanwhile.
    case ForgetName => true
    case Appear => s.cell.rt.None?
  }

  function Next(svc: Service, s: System, a: Action): System
    requires Enabled(s, a)
  {
    match a
    case EnterStart(hooks) => s.Start(hooks)
    case BeginSpawn(k) =>
      var Preparing(g, hooks) := s.tasks[k];
      if s.cell.gen != g then s.Done(k)
      else if s.Running() then s.Become(k, Spawned(g, hooks, s.record.value))
      else s.(record := None).Become(k, Spawning(g, hooks))
    case Spawn(k) =>
      var Spawning(g, hooks) := s.tasks[k];
      if s.Running() then s.Become(k, Spawned(g, hooks, s.record.value))
      else
        var h := Handle(s.spawned, g);
        s.(record := Some(h), live := s.live + {h}, spawned := s.spawned + 1).Become(k, Spawned(g, hooks, h))
    case StartThrows(k) =>
      if s.cell.gen == s.tasks[k].gen then s.Done(k).FailNow() else s.Done(k)
    case Resume(k) =>
      var Spawned(g, hooks, h) := s.tasks[k];
      if s.cell.gen != g then
        if s.record == Some(h) then s.Become(k, CleanupStop(Some(h))) else s.Done(k)
      else
        var r := s.(cell := s.cell.SetState(Running, HealthUnknown));
        if hooks then r.Become(k, PostStart(g)) else r.AfterLaunch(svc, k, g)
    case HookDone(k, ok) =>
      if ok then s.AfterLaunch(svc, k, s.tasks[k].gen) else s.Done(k).FailNow()
    case WaitOver(k, ok) =>
      if ok then s.Done(k) else s.Done(k).FailNow()
    case FailRequested => s.FailNow()
    case EnterStop(reset) => s.StopPlan(reset)
    case PlanKill(k) =>
      s.(cell := s.cell.SetState(Stopping, HealthUnknown).(watch := None)).Become(k, PlanStopping(s.record))
    case StopDone(k) =>
      var t := if s.tasks[k].target.Some? then s.(record := None) else s;
      if s.tasks[k].PlanStopping? then t.Become(k, PlanReleasing) else t.Done(k)
    case StopFails(k) =>
      if s.tasks[k].PlanStopping? then s.(cell := s.cell.SetState(Failed, HealthUnknown)).Done(k) else s.Done(k)
    case Released(k) => s.(cell := s.cell.SetState(Stopped, HealthUnknown)).Done(k)
    case Die(h) => s.(live := s.live - {h}, dead := s.dead + {h})
    case DeliverExit(h, code, configured) =>
      var (c, outcome) := s.cell.OnExit(if configured then Some(svc) else None, h.epoch, code);
      var t := s.(cell := c, dead := s.dead - {h}, record := if s.record == Some(h) then None else s.record);
      if outcome == FailedNow then t.Add(FailStop(t.record)) else t
    case Tick => s.Add(Probe(s.cell.watch.value))
    case ProbeDone(k, health, inGrace) =>
      s.(cell := s.cell.OnProbe(svc, s.tasks[k].gen, health, inGrace).0).Done(k)
    case TimerFires(configured) =>
      var timer := s.cell.timer.value;
      var t := s.(cell := s.cell.(timer := None));
      if s.cell.gen != timer.gen || !configured then t
      else if timer.cause == Crash then t.Start(false)
      else t.StopPlan(false)
    case ResetBudget => s.(cell := s.cell.ResetCount())
    case ForgetName => s.(cell := s.cell.Forget().(rt := None))
    case Appear => s.(cell := s.cell.(rt := Some(Runtime(Stopped, HealthUnknown, 0))))
  }

  /** What happened so far. Written from the steps and never read by them. */
  datatype Past = Past(
    launched: set<nat>,       // epochs whose launch was recorded as RUNNING
    silenced: set<nat>,       // of those, epochs whose exit was handled afterwards
    arms: seq<real>,          // delays of the restarts armed since the count was last reset
    results: seq<Health>,     // probe results applied in this epoch since the last manual reset
    proved: set<nat>,         // epochs in which a Healthy result was applied
    healthArms: set<nat>,     // epochs in which unhealthy results armed a restart
    gaveUp: set<Handle>,      // processes a stop failed to end
    displaced: set<Handle>,   // live processes that a stop of another process took off the record
    forgotten: set<Handle>,   // since the last stop plan, processes whose name was forgotten while they were current
    marks: seq<Mark>)         // what counted towards the unhealthy streak and what cleared it

  /** A result of epoch `gen` that counted, or something in that epoch that cleared the streak. */
  datatype Mark = Counted(gen: nat) | Cleared(gen: nat)

  const NoPast := Past({}, {}, [], [], {}, {}, {}, {}, {}, [])

  predicate Launches(s: System, a: Action)
    requires Enabled(s, a)
  {
    a.Resume? && s.tasks[a.k].gen == s.cell.gen
  }

  predicate Applied(s: System, a: Action)
    requires Enabled(s, a)
  {
    a.ProbeDone? && s.cell.Applies(s.tasks[a.k].gen, a.health, a.inGrace)
  }

  predicate ManualReset(a: Action) {
    a.ResetBudget? || (a.EnterStop? && a.reset) || a.ForgetName?
  }

  /** The restart that this step arms, if it arms one. */
  function ArmedBy(svc: Service, s: System, a: Action): Option<Timer>
    requires Enabled(s, a)
  {
    match a
    case DeliverExit(h, code, configured) =>
      (match s.cell.OnExit(if configured then Some(svc) else None, h.epoch, code).1
       case Rearmed(timer) => Some(timer)
       case _ => None)
    case ProbeDone(k, health, inGrace) =>
      (match s.cell.OnProbe(svc, s.tasks[k].gen, health, inGrace).1
       case Armed(timer) => Some(timer)
       case _ => None)
    case _ => None
  }

  predicate Forgives(svc: Service, s: System, a: Action)
    requires Enabled(s, a)
  {
    a.ProbeDone? && s.cell.OnProbe(svc, s.tasks[a.k].gen, a.health, a.inGrace).1 == Forgave
  }

  function DisplacedBy(s: System, a: Action): set<Handle>
    requires Enabled(s, a)
  {
    if a.StopDone? && s.tasks[a.k].target.Some? && s.Running() then {s.record.value} else {}
  }

  /** The process on record is live and of the current epoch, and the name is forgotten. */
  function ForgottenBy(s: System, a: Action): set<Handle>
    requires Enabled(s, a)
  {
    if a.ForgetName? && s.Running() && s.record.value.epoch == s.cell.gen then {s.record.value} else {}
  }

  /** An Unhealthy result that adds to the streak. */
  predicate CountsUnhealthy(svc: Service, s: System, a: Action)
    requires Enabled(s, a)
  {
    Applied(s, a) && a.health == HealthUnhealthy && s.cell.Counts(svc)
  }

  /** A result after which the streak is zero: one that is not Unhealthy, or one that completes the streak. */
  predicate ClearsStreak(svc: Service, s: System, a: Action)
    requires Enabled(s, a)
  {
    Applied(s, a) && (a.health != HealthUnhealthy || (s.cell.Counts(svc) && s.cell.EndsStreak(svc)))
  }

  function MarksOf(svc: Service, s: System, a: Action): seq<Mark>
    requires Enabled(s, a)
  {
    (if CountsUnhealthy(svc, s, a) then [Counted(s.cell.gen)] else [])
    + (if ClearsStreak(svc, s, a) || a.ForgetName? then [Cleared(s.cell.gen)] else [])
  }

  function Remember(svc: Service, past: Past, s: System, a: Action): Past
    requires Enabled(s, a)
  {
    var t := Next(svc, s, a);
    Past(
      past.launched + (if Launches(s, a) then {s.cell.gen} else {}),
      past.silenced
      + (if a.DeliverExit? && a.h.epoch == s.cell.gen && s.cell.gen in past.launched then {s.cell.gen} else {}),
      if ManualReset(a) || Forgives(svc, s, a) then []
      else if ArmedBy(svc, s, a).Some? then past.arms + [ArmedBy(svc, s, a).value.delayMs]
      else past.arms,
      if t.cell.gen != s.cell.gen || ManualReset(a) then []
      else if Applied(s, a) then past.results + [a.health]
      else past.results,
      past.proved + (if Applied(s, a) && a.health == HealthHealthy then {s.cell.gen} else {}),
      past.healthArms + (if a.ProbeDone? && ArmedBy(svc, s, a).Some? then {s.cell.gen} else {}),
      past.gaveUp + (if a.StopFails? then {s.tasks[a.k].target.value} else {}),
      past.displaced + DisplacedBy(s, a),
      (if a.EnterStop? then {} else past.forgotten) + ForgottenBy(s, a),
      past.marks + MarksOf(svc, s, a))
  }

  datatype World = World(sys: System, past: Past)

  ghost predicate Step(svc: Service, w: World, a: Action, w': World) {
    Enabled(w.sys, a) && w' == World(Next(svc, w.sys, a), Remember(svc, w.past, w.sys, a))
  }

  /** A finite run from the start of the daemon: world `i` becomes world `i + 1` by action `i`. */
  ghost predicate Run(svc: Service, worlds: seq<World>, actions: seq<Action>) {
    && |worlds| == |actions| + 1
    && worlds[0] == World(Initial, NoPast)
    && forall i :: 0 <= i < |actions| ==> Step(svc, worlds[i], actions[i], worlds[i + 1])
  }
}
