/** Runs that show where the guarantees of LifecycleRuns end. */
module LifecycleWitnesses {
  import opened Basics
  import opened Policies
  import opened HealthRules
  import opened LifecycleProtocol

  /** `s` is where some run that takes exactly `actions` ends. */
  ghost predicate Reaches(svc: Service, actions: seq<Action>, w: World) {
    exists worlds :: Run(svc, worlds, actions) && worlds[|actions|] == w
  }

  lemma StartsThere(svc: Service)
    ensures Reaches(svc, [], World(Initial, NoPast))
  {
    assert Run(svc, [World(Initial, NoPast)], []);
  }

  lemma OneMore(svc: Service, actions: seq<Action>, w: World, a: Action) returns (w': World)
    requires Reaches(svc, actions, w) && Enabled(w.sys, a)
    ensures Reaches(svc, actions + [a], w') && w'.sys == Next(svc, w.sys, a)
    ensures w'.past.results ==
      if w'.sys.cell.gen != w.sys.cell.gen || ManualReset(a) then []
      else if Applied(w.sys, a) then w.past.results + [a.health]
      else w.past.results
  {
    var worlds :| Run(svc, worlds, actions) && worlds[|actions|] == w;
    w' := World(Next(svc, w.sys, a), Remember(svc, w.past, w.sys, a));
    var longer := worlds + [w'];
    forall i | 0 <= i < |actions + [a]|
      ensures Step(svc, longer[i], (actions + [a])[i], longer[i + 1])
    {
      if i < |actions| {
        assert Step(svc, worlds[i], actions[i], worlds[i + 1]);
      }
    }
    assert Run(svc, longer, actions + [a]);
  }

  /** The start waiting at `k`, still current, goes on to spawn `h`. */
  lemma SpawnFrom(svc: Service, actions: seq<Action>, w: World, k: nat)
    returns (more: seq<Action>, w': World, h: Handle)
    requires Reaches(svc, actions, w) && k in w.sys.tasks && w.sys.tasks[k] == Preparing(w.sys.cell.gen, false)
    requires !w.sys.Running()
    ensures Reaches(svc, more, w') && h == Handle(w.sys.spawned, w.sys.cell.gen)
    ensures w'.sys == w.sys.(record := Some(h), live := w.sys.live + {h}, spawned := w.sys.spawned + 1,
      tasks := w.sys.tasks[k := Spawned(w.sys.cell.gen, false, h)])
    ensures w'.past.results == w.past.results
  {
    var w1 := OneMore(svc, actions, w, BeginSpawn(k));
    w' := OneMore(svc, actions + [BeginSpawn(k)], w1, Spawn(k));
    more := actions + [BeginSpawn(k)] + [Spawn(k)];
    h := Handle(w.sys.spawned, w.sys.cell.gen);
  }

  /** A start carried through the spawn: epoch `h.epoch` is current and `h`, which it spawned, is on record. */
  lemma SpawnedStart(svc: Service, actions: seq<Action>, w: World) returns (more: seq<Action>, w': World, h: Handle)
    requires Reaches(svc, actions, w)
    requires !w.sys.cell.Active(w.sys.Running()) && !w.sys.Running() && w.sys.nextTask !in w.sys.tasks
    ensures Reaches(svc, more, w')
    ensures h == Handle(w.sys.spawned, w.sys.cell.gen + 1)
    ensures w'.sys == System(w.sys.cell.SetState(Starting, HealthUnknown).Bump(), Some(h), w.sys.live + {h}, w.sys.dead,
      w.sys.spawned + 1, w.sys.tasks[w.sys.nextTask := Spawned(h.epoch, false, h)], w.sys.nextTask + 1)
    ensures w'.past.results == []
  {
    var w1 := OneMore(svc, actions, w, EnterStart(false));
    more, w', h := SpawnFrom(svc, actions + [EnterStart(false)], w1, w.sys.nextTask);
  }

  /** A service without health check is up. */
  lemma Up(svc: Service) returns (actions: seq<Action>, w: World, h: Handle)
    requires !svc.hasHealthCheck && !svc.waitForHealthy
    ensures Reaches(svc, actions, w)
    ensures w.sys.cell == Cell(1, 0, 0, 0, true, None, None, Some(Runtime(Healthy, HealthHealthy, 0)))
    ensures h == Handle(0, 1)
    ensures w.sys.record == Some(h) && w.sys.live == {h} && w.sys.dead == {} && w.sys.spawned == 1
    ensures w.sys.tasks == map[] && w.sys.nextTask == 1
  {
    StartsThere(svc);
    var as3, w3, first := SpawnedStart(svc, [], World(Initial, NoPast));
    h := first;
    w := OneMore(svc, as3, w3, Resume(0));
    actions := as3 + [Resume(0)];
    assert w.sys.tasks == map[];
  }

  /** A stop waits for the process group of `h`; `h` itself has exited, its exit was handled. */
  lemma StopInProgress(svc: Service) returns (actions: seq<Action>, w: World, h: Handle)
    requires !svc.hasHealthCheck && !svc.waitForHealthy
    ensures Reaches(svc, actions, w)
    ensures w.sys.cell.gen == 2 && w.sys.cell.rt == Some(Runtime(Stopping, HealthUnknown, 0))
    ensures w.sys.record == None && w.sys.live == {} && w.sys.nextTask == 2
    ensures w.sys.tasks == map[1 := PlanStopping(Some(h))] && h.id == 0 && w.sys.spawned == 1
  {
    var as4, w4, first := Up(svc);
    h := first;
    var w5 := OneMore(svc, as4, w4, EnterStop(true));
    var as5 := as4 + [EnterStop(true)];
    var w6 := OneMore(svc, as5, w5, PlanKill(1));
    var as6 := as5 + [PlanKill(1)];
    assert w6.sys.tasks == map[1 := PlanStopping(Some(h))];
    var w7 := OneMore(svc, as6, w6, Die(h));
    var as7 := as6 + [Die(h)];
    w := OneMore(svc, as7, w7, DeliverExit(h, 0, true));
    actions := as7 + [DeliverExit(h, 0, true)];
  }

  /**
   A stop whose process group empties after a new start has spawned takes the new
   process off the record and then records the service as STOPPED: the process is
   live, of the current epoch, on no record, and no continuation is left to stop it.
   */
  lemma StopCanLoseANewerProcess(svc: Service) returns (actions: seq<Action>, w: World, h: Handle)
    requires !svc.hasHealthCheck && !svc.waitForHealthy
    ensures Reaches(svc, actions, w)
    ensures h in w.sys.live && h.epoch == w.sys.cell.gen && w.sys.record == None && w.sys.tasks == map[]
    ensures w.sys.cell.rt.Some? && w.sys.cell.rt.value.state == Stopped
  {
    var as8, w8, first := StopInProgress(svc);
    var as11, w11, second := SpawnedStart(svc, as8, w8);
    h := second;
    var w12 := OneMore(svc, as11, w11, Resume(2));
    var as12 := as11 + [Resume(2)];
    assert w12.sys.tasks == map[1 := PlanStopping(Some(first))];
    var w13 := OneMore(svc, as12, w12, StopDone(1));
    var as13 := as12 + [StopDone(1)];
    assert w13.sys.tasks == map[1 := PlanReleasing];
    w := OneMore(svc, as13, w13, Released(1));
    actions := as13 + [Released(1)];
    assert w.sys.tasks == map[];
  }

  const Probed := Service(Always, Some(true), 3, 2.0, 3, 10, true, false)

  /** A service with a health check after a start, its first probe still out. */
  lemma FirstProbe() returns (actions: seq<Action>, w: World, h: Handle)
    ensures Reaches(Probed, actions, w)
    ensures w.sys.cell == Cell(1, 0, 0, 0, false, None, Some(1), Some(Runtime(Running, HealthUnknown, 0)))
    ensures w.sys.tasks == map[1 := Probe(1)] && w.sys.nextTask == 2 && h == Handle(0, 1)
    ensures w.sys.record == Some(h) && w.sys.live == {h} && w.sys.dead == {}
  {
    StartsThere(Probed);
    var as3, w3, first := SpawnedStart(Probed, [], World(Initial, NoPast));
    h := first;
    w := OneMore(Probed, as3, w3, Resume(0));
    actions := as3 + [Resume(0)];
    assert w.sys.tasks == map[1 := Probe(1)];
  }

  /** The same after two probes, both unhealthy. */
  lemma TwoUnhealthyResults() returns (actions: seq<Action>, w: World, h: Handle)
    ensures Reaches(Probed, actions, w)
    ensures w.sys.cell == Cell(1, 0, 2, 0, false, None, Some(1), Some(Runtime(Unhealthy, HealthUnhealthy, 0)))
    ensures w.sys.tasks == map[] && w.sys.nextTask == 3 && h == Handle(0, 1)
    ensures w.sys.record == Some(h) && w.sys.live == {h} && w.sys.dead == {}
  {
    var as4, w4, first := FirstProbe();
    h := first;
    var w5 := OneMore(Probed, as4, w4, ProbeDone(1, HealthUnhealthy, false));
    var as5 := as4 + [ProbeDone(1, HealthUnhealthy, false)];
    assert w5.sys.tasks == map[];
    var w6 := OneMore(Probed, as5, w5, Tick);
    var as6 := as5 + [Tick];
    w := OneMore(Probed, as6, w6, ProbeDone(2, HealthUnhealthy, false));
    actions := as6 + [ProbeDone(2, HealthUnhealthy, false)];
    assert w.sys.tasks == map[];
  }

  /** Its process crashes and the delayed restart begins epoch 2; the streak is still two. */
  lemma CrashedAndRestarting() returns (actions: seq<Action>, w: World)
    ensures Reaches(Probed, actions, w)
    ensures w.sys.cell.gen == 2 && w.sys.cell.unhealthy == 2 && w.sys.cell.timer == None && w.sys.cell.restarts == 1
    ensures w.sys.cell.rt == Some(Runtime(Starting, HealthUnknown, 1)) && !w.sys.cell.ready
    ensures w.sys.record == None && w.sys.tasks == map[3 := Preparing(2, false)] && w.sys.nextTask == 4
    ensures w.past.results == []
  {
    var as7, w7, h := TwoUnhealthyResults();
    var w8 := OneMore(Probed, as7, w7, Die(h));
    var as8 := as7 + [Die(h)];
    var w9 := OneMore(Probed, as8, w8, DeliverExit(h, 1, true));
    var as9 := as8 + [DeliverExit(h, 1, true)];
    w := OneMore(Probed, as9, w9, TimerFires(true));
    actions := as9 + [TimerFires(true)];
  }

  /**
   The unhealthy streak outlives its epoch: with a threshold of three, the first
   result applied in an epoch can already arm a restart.
   */
  lemma StreakCrossesEpochs() returns (actions: seq<Action>, w: World, a: Action)
    ensures Reaches(Probed, actions, w) && Enabled(w.sys, a)
    ensures UnhealthyThreshold(Probed) == 3 && w.past.results == [] && w.sys.cell.gen == 2
    ensures a.ProbeDone? && ArmedBy(Probed, w.sys, a).Some?
  {
    var as10, w10 := CrashedAndRestarting();
    var as12, w12, h := SpawnFrom(Probed, as10, w10, 3);
    w := OneMore(Probed, as12, w12, Resume(3));
    actions := as12 + [Resume(3)];
    assert w.sys.tasks == map[4 := Probe(2)];
    a := ProbeDone(4, HealthUnhealthy, false);
  }

  /**
   The same crash, but the service is started before the delay is over: the restart of epoch 1 is
   still pending in epoch 2.
   */
  lemma StartedWhilePending() returns (actions: seq<Action>, w: World)
    ensures Reaches(Probed, actions, w)
    ensures w.sys.cell.gen == 2 && w.sys.cell.unhealthy == 2 && !w.sys.cell.ready && w.sys.cell.restarts == 1
    ensures w.sys.cell.timer.Some? && w.sys.cell.timer.value.gen == 1 && w.sys.cell.watch == Some(2)
    ensures w.sys.cell.rt == Some(Runtime(Running, HealthUnknown, 1)) && w.past.results == []
    ensures w.sys.tasks == map[4 := Probe(2)] && w.sys.nextTask == 5
  {
    var as7, w7, h := TwoUnhealthyResults();
    var w8 := OneMore(Probed, as7, w7, Die(h));
    var as8 := as7 + [Die(h)];
    var w9 := OneMore(Probed, as8, w8, DeliverExit(h, 1, true));
    var as9 := as8 + [DeliverExit(h, 1, true)];
    var as12, w12, second := SpawnedStart(Probed, as9, w9);
    w := OneMore(Probed, as12, w12, Resume(3));
    actions := as12 + [Resume(3)];
    assert w.sys.tasks == map[4 := Probe(2)];
  }

  /** An unhealthy probe that does not count, as a restart is pending, and the next probe. */
  lemma SparedResult(actions: seq<Action>, w: World, k: nat) returns (more: seq<Action>, w': World)
    requires Reaches(Probed, actions, w) && w.sys.tasks == map[k := Probe(2)] && w.sys.nextTask == k + 1
    requires w.sys.cell.gen == 2 && w.sys.cell.watch == Some(2) && w.sys.cell.timer.Some?
    requires w.sys.cell.rt.Some? && !w.sys.cell.Ignoring()
    ensures Reaches(Probed, more, w') && w'.sys.tasks == map[k + 1 := Probe(2)] && w'.sys.nextTask == k + 2
    ensures w'.sys.cell == w.sys.cell.(healthy := 0, rt := w'.sys.cell.rt) && w'.sys.cell.rt.Some?
    ensures !w'.sys.cell.Ignoring()
    ensures w'.past.results == w.past.results + [HealthUnhealthy]
  {
    var w1 := OneMore(Probed, actions, w, ProbeDone(k, HealthUnhealthy, false));
    assert w1.sys.tasks == map[];
    w' := OneMore(Probed, actions + [ProbeDone(k, HealthUnhealthy, false)], w1, Tick);
    more := actions + [ProbeDone(k, HealthUnhealthy, false)] + [Tick];
  }

  /**
   A positive streak at the beginning of an epoch does not always bring the restart early: two
   results that do not count, as a restart of epoch 1 is pending, and a third one that counts.
   */
  lemma PendingRestartSparesResults() returns (actions: seq<Action>, w: World, a: Action)
    ensures Reaches(Probed, actions, w) && Enabled(w.sys, a) && a.ProbeDone? && ArmedBy(Probed, w.sys, a).Some?
    ensures w.past.results == [HealthUnhealthy, HealthUnhealthy] && UnhealthyThreshold(Probed) == 3
    ensures w.sys.cell.gen == 2
  {
    var as13, w13 := StartedWhilePending();
    var as15, w15 := SparedResult(as13, w13, 4);
    var as17, w17 := SparedResult(as15, w15, 5);
    w := OneMore(Probed, as17, w17, TimerFires(true));
    actions := as17 + [TimerFires(true)];
    a := ProbeDone(6, HealthUnhealthy, false);
  }

  /** A start of epoch 1 inside the process runtime. */
  lemma InsideStart(svc: Service) returns (actions: seq<Action>, w: World)
    ensures Reaches(svc, actions, w)
    ensures w.sys == System(Initial.cell.SetState(Starting, HealthUnknown).Bump(), None, {}, {}, 0,
                            map[0 := Spawning(1, false)], 1)
  {
    StartsThere(svc);
    var w1 := OneMore(svc, [], World(Initial, NoPast), EnterStart(false));
    w := OneMore(svc, [] + [EnterStart(false)], w1, BeginSpawn(0));
    actions := [] + [EnterStart(false)] + [BeginSpawn(0)];
  }

  /** A stop that finds no process on record, from its first step to the last but one. */
  lemma StopOfNothing(svc: Service, actions: seq<Action>, w: World, k: nat) returns (more: seq<Action>, w': World)
    requires Reaches(svc, actions, w) && w.sys.record == None && k == w.sys.nextTask
    ensures Reaches(svc, more, w')
    ensures w'.sys == w.sys.StopPlan(true).(cell := w'.sys.cell, tasks := w.sys.tasks[k := PlanStopping(None)])
    ensures w'.sys.cell == w.sys.StopPlan(true).cell.SetState(Stopping, HealthUnknown).(watch := None)
  {
    var w1 := OneMore(svc, actions, w, EnterStop(true));
    w' := OneMore(svc, actions + [EnterStop(true)], w1, PlanKill(k));
    more := actions + [EnterStop(true)] + [PlanKill(k)];
    assert w1.sys.tasks[k := PlanStopping(None)] == w.sys.tasks[k := PlanStopping(None)];
  }

  /** A start of epoch 1 inside the process runtime while a stop went by. */
  lemma StaleStart(svc: Service) returns (actions: seq<Action>, w: World)
    ensures Reaches(svc, actions, w)
    ensures w.sys.cell.gen == 2 && w.sys.cell.rt == Some(Runtime(Stopped, HealthUnknown, 0))
    ensures w.sys.record == None && w.sys.live == {} && w.sys.spawned == 0
    ensures w.sys.tasks == map[0 := Spawning(1, false)] && w.sys.nextTask == 2
  {
    var as2, w2 := InsideStart(svc);
    var as4, w4 := StopOfNothing(svc, as2, w2, 1);
    var w5 := OneMore(svc, as4, w4, StopDone(1));
    var as5 := as4 + [StopDone(1)];
    w := OneMore(svc, as5, w5, Released(1));
    actions := as5 + [Released(1)];
    assert w.sys.tasks == map[0 := Spawning(1, false)];
  }

  /**
   A stale start can stop the replacement: it is handed the process of a later start, finds it on
   record when it resumes, and stops it although it is of the current epoch.
   */
  lemma CleanupCanStopAReplacement(svc: Service) returns (actions: seq<Action>, w: World, h: Handle)
    ensures Reaches(svc, actions, w)
    ensures 0 in w.sys.tasks && w.sys.tasks[0] == CleanupStop(Some(h))
    ensures h in w.sys.live && w.sys.record == Some(h) && h.epoch == w.sys.cell.gen
  {
    var as6, w6 := StaleStart(svc);
    var as9, w9, second := SpawnedStart(svc, as6, w6);
    h := second;
    var w10 := OneMore(svc, as9, w9, Spawn(0));
    var as10 := as9 + [Spawn(0)];
    w := OneMore(svc, as10, w10, Resume(0));
    actions := as10 + [Resume(0)];
  }

  /** Forgetting the name of a current process makes it an orphan for which nothing answers. */
  lemma ForgetCanOrphan(svc: Service) returns (actions: seq<Action>, w: World, h: Handle)
    requires !svc.hasHealthCheck && !svc.waitForHealthy
    ensures Reaches(svc, actions, w)
    ensures h in w.sys.live && w.sys.record == Some(h) && h.epoch < w.sys.cell.gen && w.sys.tasks == map[]
  {
    var as4, w4, first := Up(svc);
    h := first;
    w := OneMore(svc, as4, w4, ForgetName);
    actions := as4 + [ForgetName];
  }
}
