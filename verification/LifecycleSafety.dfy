/** What every run of the lifecycle protocol keeps. */
module LifecycleSafety {
  import opened Basics
  import opened Policies
  import opened HealthRules
  import opened LifecycleProtocol

  /** The epoch number a continuation captured. */
  function Holds(t: Task): Option<nat> {
    match t
    case Preparing(g, _) => Some(g)
    case Spawning(g, _) => Some(g)
    case Spawned(g, _, _) => Some(g)
    case PostStart(g) => Some(g)
    case AwaitHealthy(g) => Some(g)
    case Probe(g) => Some(g)
    case _ => None
  }

  ghost predicate Held(g: Option<nat>, top: nat) {
    g.Some? ==> 1 <= g.value <= top
  }

  /** Every epoch number held by a continuation, a timer, a watch or a process lies in 1..top. */
  ghost predicate HoldersUpTo(s: System, top: nat) {
    && (forall k :: k in s.tasks ==> Held(Holds(s.tasks[k]), top))
    && (forall h :: h in s.live || h in s.dead ==> 1 <= h.epoch <= top)
    && (s.cell.timer.Some? ==> 1 <= s.cell.timer.value.gen <= top)
    && Held(s.cell.watch, top)
  }

  /** While the name has no runtime entry, no probe can be applied in its current epoch. */
  ghost predicate UntrackedIdle(s: System) {
    s.cell.rt.None? ==>
      && (forall k :: k in s.tasks ==> Holds(s.tasks[k]) != Some(s.cell.gen))
      && s.cell.watch != Some(s.cell.gen)
  }

  ghost predicate StartsDistinct(s: System) {
    forall i, j :: i in s.tasks && j in s.tasks && i != j && IsStart(s.tasks[i]) && IsStart(s.tasks[j])
      ==> s.tasks[i].gen != s.tasks[j].gen
  }

  ghost predicate Good(s: System) {
    && HoldersUpTo(s, s.cell.gen)
    && UntrackedIdle(s)
    && StartsDistinct(s)
    && (forall k :: k in s.tasks ==> k < s.nextTask)
    && (forall h :: h in s.live || h in s.dead ==> h.id < s.spawned)
    && s.live !! s.dead
    && (s.record.Some? ==> s.record.value in s.live || s.record.value in s.dead)
  }

  lemma CellGood(s: System, c: Cell)
    requires Good(s) && s.cell.gen <= c.gen
    requires c.timer.Some? ==> 1 <= c.timer.value.gen <= c.gen
    requires Held(c.watch, c.gen)
    requires c.rt.None? ==> c.watch != Some(c.gen) && (s.cell.rt.None? || s.cell.gen < c.gen)
    ensures Good(s.(cell := c))
  {
  }

  lemma AddGood(s: System, t: Task)
    requires Good(s) && Held(Holds(t), s.cell.gen) && !IsStart(t)
    requires s.cell.rt.None? ==> Holds(t) != Some(s.cell.gen)
    ensures Good(s.Add(t))
  {
  }

  lemma DoneGood(s: System, k: nat)
    requires Good(s)
    ensures Good(s.Done(k))
  {
  }

  lemma BecomeGood(s: System, k: nat, t: Task)
    requires Good(s) && k in s.tasks
    requires Holds(t) == None || Holds(t) == Holds(s.tasks[k])
    requires IsStart(t) ==> IsStart(s.tasks[k])
    ensures Good(s.Become(k, t))
  {
  }

  lemma StartGood(s: System, hooks: bool)
    requires Good(s)
    ensures Good(s.Start(hooks))
  {
    if !s.cell.Active(s.Running()) {
      var c := s.cell.SetState(Starting, HealthUnknown).Bump();
      var t := s.(cell := c);
      CellGood(s, c);
      assert forall k :: k in t.tasks && IsStart(t.tasks[k]) ==> t.tasks[k].gen < c.gen by {
        assert forall k :: k in s.tasks ==> Held(Holds(s.tasks[k]), s.cell.gen);
      }
    }
  }

  lemma FailGood(s: System)
    requires Good(s)
    ensures Good(s.FailNow())
  {
    CellGood(s, s.cell.Fail());
    AddGood(s.(cell := s.cell.Fail()), FailStop(s.record));
  }

  lemma StopPlanGood(s: System, reset: bool)
    requires Good(s)
    ensures Good(s.StopPlan(reset))
  {
    var c := s.cell.(timer := None).Bump();
    var d := if reset then c.ResetCount() else c;
    CellGood(s, d);
    AddGood(s.(cell := d), PlanWaiting);
  }

  lemma AfterLaunchGood(svc: Service, s: System, k: nat)
    requires Good(s) && k in s.tasks && IsStart(s.tasks[k])
    ensures Good(s.AfterLaunch(svc, k, s.tasks[k].gen))
  {
    var g := s.tasks[k].gen;
    assert Holds(s.tasks[k]) == Some(g);
    if s.cell.gen == g {
      var t := s.(cell := s.cell.StartHealth(svc, g));
      CellGood(s, t.cell);
      BecomeGood(t, k, AwaitHealthy(g));
      DoneGood(t, k);
      AddGood(if svc.waitForHealthy then t.Become(k, AwaitHealthy(g)) else t.Done(k), Probe(g));
    } else {
      DoneGood(s, k);
    }
  }

  lemma StartStepGood(svc: Service, s: System, a: Action)
    requires Good(s) && Enabled(s, a)
    requires a.EnterStart? || a.BeginSpawn? || a.StartThrows?
    ensures Good(Next(svc, s, a))
  {
    match a
    case EnterStart(hooks) => StartGood(s, hooks);
    case BeginSpawn(k) =>
      DoneGood(s, k);
      var Preparing(g, hooks) := s.tasks[k];
      BecomeGood(s.(record := None), k, Spawning(g, hooks));
    case StartThrows(k) =>
      DoneGood(s, k);
      FailGood(s.Done(k));
  }

  lemma SpawnStepGood(svc: Service, s: System, a: Action)
    requires Good(s) && Enabled(s, a) && a.Spawn?
    ensures Good(Next(svc, s, a))
  {
    var Spawning(g, hooks) := s.tasks[a.k];
    assert Holds(s.tasks[a.k]) == Some(g);
    var h := Handle(s.spawned, g);
    var t := s.(record := Some(h), live := s.live + {h}, spawned := s.spawned + 1);
    assert Good(t);
    BecomeGood(t, a.k, Spawned(g, hooks, h));
  }

  lemma LaunchStepGood(svc: Service, s: System, a: Action)
    requires Good(s) && Enabled(s, a)
    requires a.Resume? || a.HookDone? || a.WaitOver?
    ensures Good(Next(svc, s, a))
  {
    match a
    case Resume(k) =>
      var Spawned(g, hooks, h) := s.tasks[k];
      var r := s.(cell := s.cell.SetState(Running, HealthUnknown));
      CellGood(s, r.cell);
      DoneGood(s, k);
      BecomeGood(s, k, CleanupStop(Some(h)));
      BecomeGood(r, k, PostStart(g));
      AfterLaunchGood(svc, r, k);
    case HookDone(k, ok) =>
      AfterLaunchGood(svc, s, k);
      DoneGood(s, k);
      FailGood(s.Done(k));
    case WaitOver(k, ok) =>
      DoneGood(s, k);
      FailGood(s.Done(k));
  }

  lemma StopStepGood(svc: Service, s: System, a: Action)
    requires Good(s) && Enabled(s, a) && StopSide(a)
    ensures Good(Next(svc, s, a))
  {
    match a
    case FailRequested => FailGood(s);
    case EnterStop(reset) => StopPlanGood(s, reset);
    case PlanKill(k) =>
      var c := s.cell.SetState(Stopping, HealthUnknown).(watch := None);
      CellGood(s, c);
      BecomeGood(s.(cell := c), k, PlanStopping(s.record));
    case StopDone(k) =>
      var t := if s.tasks[k].target.Some? then s.(record := None) else s;
      DoneGood(t, k);
      BecomeGood(t, k, PlanReleasing);
    case StopFails(k) =>
      DoneGood(s, k);
      CellGood(s.Done(k), s.cell.SetState(Failed, HealthUnknown));
    case Released(k) =>
      DoneGood(s, k);
      CellGood(s.Done(k), s.cell.SetState(Stopped, HealthUnknown));
  }

  /** What CellGood asks of a cell, given that no entry disappears. */
  ghost predicate Bounded(c: Cell, d: Cell) {
    && c.gen <= d.gen
    && (d.timer.Some? ==> 1 <= d.timer.value.gen <= d.gen)
    && Held(d.watch, d.gen)
    && (c.rt.Some? ==> d.rt.Some?)
    && (d.rt.None? ==> d.watch != Some(d.gen))
  }

  lemma ExitBounded(c: Cell, svc: Option<Service>, g: nat, code: int)
    requires Bounded(c, c) && 1 <= g <= c.gen
    ensures Bounded(c, c.OnExit(svc, g, code).0)
  {
  }

  lemma ProbeBounded(c: Cell, svc: Service, g: nat, health: Health, inGrace: bool)
    requires Bounded(c, c) && 1 <= g <= c.gen
    ensures Bounded(c, c.OnProbe(svc, g, health, inGrace).0)
  {
  }

  lemma ExitStepGood(svc: Service, s: System, a: Action)
    requires Good(s) && Enabled(s, a) && a.DeliverExit?
    ensures Good(Next(svc, s, a))
  {
    var configured := if a.configured then Some(svc) else None;
    var c := s.cell.OnExit(configured, a.h.epoch, a.code).0;
    ExitBounded(s.cell, configured, a.h.epoch, a.code);
    var t := s.(dead := s.dead - {a.h}, record := if s.record == Some(a.h) then None else s.record);
    assert Good(t);
    CellGood(t, c);
    AddGood(t.(cell := c), FailStop(t.record));
  }

  lemma TimerStepGood(svc: Service, s: System, a: Action)
    requires Good(s) && Enabled(s, a) && a.TimerFires?
    ensures Good(Next(svc, s, a))
  {
    var t := s.(cell := s.cell.(timer := None));
    CellGood(s, t.cell);
    StartGood(t, false);
    StopPlanGood(t, false);
  }

  lemma ProbeStepGood(svc: Service, s: System, a: Action)
    requires Good(s) && Enabled(s, a) && a.ProbeDone?
    ensures Good(Next(svc, s, a))
  {
    assert Held(Holds(s.tasks[a.k]), s.cell.gen);
    ProbeBounded(s.cell, svc, s.tasks[a.k].gen, a.health, a.inGrace);
    DoneGood(s, a.k);
    CellGood(s.Done(a.k), s.cell.OnProbe(svc, s.tasks[a.k].gen, a.health, a.inGrace).0);
  }

  lemma OtherStepGood(svc: Service, s: System, a: Action)
    requires Good(s) && Enabled(s, a)
    requires a.Die? || a.Tick? || a.ResetBudget? || a.ForgetName? || a.Appear?
    ensures Good(Next(svc, s, a))
  {
    match a
    case Die(h) =>
    case Tick => AddGood(s, Probe(s.cell.watch.value));
    case ResetBudget => CellGood(s, s.cell.ResetCount());
    case ForgetName => CellGood(s, s.cell.Forget().(rt := None));
    case Appear => CellGood(s, s.cell.(rt := Some(Runtime(Stopped, HealthUnknown, 0))));
  }

  lemma GoodKept(svc: Service, s: System, a: Action)
    requires Good(s) && Enabled(s, a)
    ensures Good(Next(svc, s, a))
  {
    match a
    case EnterStart(_) => StartStepGood(svc, s, a);
    case BeginSpawn(_) => StartStepGood(svc, s, a);
    case Spawn(_) => SpawnStepGood(svc, s, a);
    case StartThrows(_) => StartStepGood(svc, s, a);
    case Resume(_) => LaunchStepGood(svc, s, a);
    case HookDone(_, _) => LaunchStepGood(svc, s, a);
    case WaitOver(_, _) => LaunchStepGood(svc, s, a);
    case FailRequested => StopStepGood(svc, s, a);
    case EnterStop(_) => StopStepGood(svc, s, a);
    case PlanKill(_) => StopStepGood(svc, s, a);
    case StopDone(_) => StopStepGood(svc, s, a);
    case StopFails(_) => StopStepGood(svc, s, a);
    case Released(_) => StopStepGood(svc, s, a);
    case DeliverExit(_, _, _) => ExitStepGood(svc, s, a);
    case ProbeDone(_, _, _) => ProbeStepGood(svc, s, a);
    case TimerFires(_) => TimerStepGood(svc, s, a);
    case _ => OtherStepGood(svc, s, a);
  }
}
