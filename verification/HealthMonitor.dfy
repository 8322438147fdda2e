/** The health monitor as the object the daemon holds: maps per concern, and timeouts registered with the event loop. */
module HealthMonitorClass {
  import opened Basics
  import opened Policies
  import opened HealthRules
  import opened HealthLaws

  /** The part of the daemon's state that the monitor reads and writes. */
  class Host {
    var runtimes: map<string, Runtime>
    var services: map<string, Service>

    constructor ()
      ensures runtimes == map[] && services == map[]
    {
      runtimes, services := map[], map[];
    }

    function ServiceOf(name: string): Option<Service>
      reads this
    {
      if name in services then Some(services[name]) else None
    }

    method SetState(name: string, state: ServiceState, health: Health)
      modifies this`runtimes
      ensures var restarts := if name in old(runtimes) then old(runtimes)[name].restarts else 0;
              runtimes == old(runtimes)[name := Runtime(state, health, restarts)]
    {
      var rt := if name in runtimes then runtimes[name] else Runtime(Stopped, HealthUnknown, 0);
      runtimes := runtimes[name := Runtime(state, health, rt.restarts)];
    }
  }

  /** A setTimeout callback that has neither fired nor been cleared. */
  datatype Timeout = Timeout(name: string, timer: Timer)

  /** The pending restart timeouts: the event loop's registrations, and the handle kept for each service. */
  class RestartTimers {
    var handles: map<string, nat>
    var timeouts: map<nat, Timeout>
    var next: nat
    ghost var pending: map<string, Timer>

    /** Every pending timeout is the one its service's handle points at, so a service has at most one. */
    ghost predicate Valid()
      reads this
    {
      && handles.Keys == pending.Keys
      && (forall name :: name in handles ==>
            handles[name] in timeouts && timeouts[handles[name]] == Timeout(name, pending[name]))
      && (forall id :: id in timeouts ==> id < next && timeouts[id].name in handles && handles[timeouts[id].name] == id)
    }

    constructor ()
      ensures Valid() && pending == map[] && timeouts == map[]
    {
      handles, timeouts, next, pending := map[], map[], 0, map[];
    }

    method Clear(name: string)
      requires Valid()
      modifies this
      ensures Valid() && pending == old(pending) - {name}
    {
      if name in handles {
        timeouts := timeouts - {handles[name]};
        handles := handles - {name};
      }
      pending := pending - {name};
    }

    /** Cancels every pending timeout: none is left registered with the event loop. */
    method ClearAll()
      requires Valid()
      modifies this
      ensures Valid() && pending == map[] && timeouts == map[]
    {
      var names := handles.Keys;
      while names != {}
        invariant names <= handles.Keys && handles == old(handles)
        invariant forall id :: id in timeouts <==> id in old(timeouts) && old(timeouts)[id].name in names
        decreases names
      {
        var name :| name in names;
        timeouts := timeouts - {handles[name]};
        names := names - {name};
      }
      assert timeouts.Keys == {};
      handles, pending := map[], map[];
    }

    /** Registers the timeout after cancelling the one the service may already have. */
    method Schedule(name: string, timer: Timer)
      requires Valid()
      modifies this
      ensures Valid() && pending == old(pending)[name := timer]
    {
      Clear(name);
      assert forall id :: id in timeouts ==> timeouts[id].name != name;
      timeouts := timeouts[next := Timeout(name, timer)];
      handles, pending := handles[name := next], pending[name := timer];
      next := next + 1;
    }

    /** The event loop runs a timeout: it is no longer registered, and its service has no handle. */
    method Fire(id: nat) returns (name: string, timer: Timer)
      requires Valid() && id in timeouts
      modifies this
      ensures Valid() && id !in timeouts
      ensures Find(old(pending), name) == Some(timer) && pending == old(pending) - {name}
    {
      name, timer := timeouts[id].name, timeouts[id].timer;
      timeouts := timeouts - {id};
      handles, pending := handles - {name}, pending - {name};
    }
  }

  class HealthMonitor {
    const host: Host
    const timers: RestartTimers
    var generation: map<string, nat>
    var healthTimers: map<string, nat>
    var restarts: map<string, nat>
    var unhealthyStreak: map<string, nat>
    var healthyStreak: map<string, nat>
    var readyOnce: map<string, bool>

    ghost predicate Valid()
      reads timers
    {
      timers.Valid()
    }

    ghost function View(name: string): Cell
      requires Valid()
      reads this, host, timers
    {
      Cell(
        Find(generation, name).GetOr(0),
        Find(restarts, name).GetOr(0),
        Find(unhealthyStreak, name).GetOr(0),
        Find(healthyStreak, name).GetOr(0),
        Find(readyOnce, name).GetOr(false),
        Find(timers.pending, name),
        Find(healthTimers, name),
        Find(host.runtimes, name))
    }

    constructor (host: Host)
      ensures Valid() && fresh(timers) && this.host == host
      ensures forall name :: View(name) == Untracked.(rt := Find(host.runtimes, name))
    {
      this.host := host;
      timers := new RestartTimers();
      generation, healthTimers, restarts := map[], map[], map[];
      unhealthyStreak, healthyStreak, readyOnce := map[], map[], map[];
    }

    method IsCurrentGeneration(name: string, gen: nat) returns (current: bool)
      ensures current == (Find(generation, name) == Some(gen))
    {
      current := name in generation && generation[name] == gen;
    }

    method BumpGeneration(name: string) returns (next: nat)
      modifies this`generation, this`healthyStreak, this`readyOnce
      ensures next == Find(old(generation), name).GetOr(0) + 1
      ensures generation == old(generation)[name := next]
      ensures healthyStreak == old(healthyStreak)[name := 0]
      ensures readyOnce == old(readyOnce)[name := false]
    {
      next := (if name in generation then generation[name] else 0) + 1;
      generation := generation[name := next];
      healthyStreak := healthyStreak[name := 0];
      readyOnce := readyOnce[name := false];
    }

    method BumpRestartCount(name: string, count: nat)
      modifies this`restarts, host`runtimes
      ensures restarts == old(restarts)[name := count]
      ensures name in old(host.runtimes) ==>
                host.runtimes == old(host.runtimes)[name := old(host.runtimes)[name].(restarts := count)]
      ensures name !in old(host.runtimes) ==> host.runtimes == old(host.runtimes)
    {
      restarts := restarts[name := count];
      if name in host.runtimes {
        host.runtimes := host.runtimes[name := host.runtimes[name].(restarts := count)];
      }
    }

    method ResetRestartCount(name: string)
      requires Valid()
      modifies this`restarts, this`healthyStreak, host`runtimes
      ensures View(name) == old(View(name)).ResetCount()
      ensures forall n :: n != name ==> View(n) == old(View(n))
    {
      healthyStreak := healthyStreak[name := 0];
      BumpRestartCount(name, 0);
    }

    method ClearHealthWatch(name: string)
      modifies this`healthTimers
      ensures healthTimers == old(healthTimers) - {name}
    {
      if name in healthTimers {
        healthTimers := healthTimers - {name};
      }
    }

    /** One unit of the restart budget for one delayed restart; the delay comes from the count before it. */
    method SpendRestart(name: string, svc: Service, gen: nat, count: nat, cause: Cause) returns (timer: Timer)
      requires Valid()
      modifies this`restarts, timers, host`runtimes
      ensures Valid() && timer == Timer(gen, cause, DelayMs(svc, count))
      ensures View(name) == old(View(name)).SetCount(count + 1).Arm(timer)
      ensures forall n :: n != name ==> View(n) == old(View(n))
    {
      BumpRestartCount(name, count + 1);
      timer := Timer(gen, cause, DelayMs(svc, count));
      timers.Schedule(name, timer);
    }

    /**
     The event loop runs a timeout. `acts` says whether the armed action runs, which it does only
     in its own epoch.
     */
    method FireTimeout(id: nat) returns (name: string, timer: Timer, acts: bool)
      requires Valid() && id in timers.timeouts
      modifies timers
      ensures Valid() && id !in timers.timeouts
      ensures old(View(name)).timer == Some(timer) && View(name) == old(View(name)).(timer := None)
      ensures timer.gen > 0 ==> acts == (View(name).gen == timer.gen)
      ensures forall n :: n != name ==> View(n) == old(View(n))
    {
      name, timer := timers.Fire(id);
      acts := IsCurrentGeneration(name, timer.gen);
    }

    method Forget(name: string)
      requires Valid()
      modifies this, timers
      ensures Valid() && View(name) == old(View(name)).Forget()
      ensures forall n :: n != name ==> View(n) == old(View(n))
    {
      ClearHealthWatch(name);
      timers.Clear(name);
      restarts := restarts - {name};
      var _ := BumpGeneration(name);
      unhealthyStreak := unhealthyStreak - {name};
      healthyStreak := healthyStreak - {name};
    }

    /** Leaves nothing scheduled and no epoch current that was current before. */
    method Dispose()
      requires Valid()
      modifies this, timers
      ensures Valid() && timers.timeouts == map[] && healthTimers == map[]
      ensures forall n :: View(n).timer == None
      ensures forall n :: View(n).gen == if n in old(generation) then old(View(n)).gen + 1 else 0
    {
      timers.ClearAll();
      var names := generation.Keys;
      while names != {}
        invariant names <= old(generation).Keys == generation.Keys && timers.Valid() && timers.timeouts == map[]
        invariant timers.pending == map[]
        invariant forall n :: n in generation ==> generation[n] == old(generation)[n] + if n in names then 0 else 1
        decreases names
      {
        var name :| name in names;
        var _ := BumpGeneration(name);
        names := names - {name};
      }
      ghost var gens := generation;
      var watched := healthTimers.Keys;
      while watched != {}
        invariant watched == healthTimers.Keys && timers.Valid() && timers.timeouts == map[] && timers.pending == map[]
        invariant generation == gens
        decreases watched
      {
        var name :| name in watched;
        ClearHealthWatch(name);
        watched := watched - {name};
      }
    }

    /** The host's fail(), up to the point where it awaits the process. */
    method Fail(name: string)
      requires Valid()
      modifies this`healthTimers, this`generation, this`healthyStreak, this`readyOnce, timers, host`runtimes
      ensures Valid() && View(name) == old(View(name)).Fail()
      ensures forall n :: n != name ==> View(n) == old(View(n))
    {
      ClearHealthWatch(name);
      timers.Clear(name);
      var _ := BumpGeneration(name);
      host.SetState(name, Failed, HealthUnknown);
    }

    /** A process of epoch `gen` ended. On FailedNow the host goes on to stop whatever is on record. */
    method OnExit(name: string, gen: nat, code: int) returns (outcome: ExitOutcome)
      requires Valid() && gen > 0
      modifies this, timers, host`runtimes
      ensures Valid() && (View(name), outcome) == old(View(name).OnExit(Find(host.services, name), gen, code))
      ensures ExitLaw(old(View(name)), old(Find(host.services, name)), gen, code, View(name), outcome)
      ensures forall n :: n != name ==> View(n) == old(View(n))
    {
      ExitExactly(View(name), Find(host.services, name), gen, code);
      var current := IsCurrentGeneration(name, gen);
      if !current {
        return Stale;
      }
      ClearHealthWatch(name);
      outcome := AfterExit(name, gen, code);
    }

    /** The rest of OnExit, once the exit is known to belong to the current epoch and the ticks have stopped. */
    method AfterExit(name: string, gen: nat, code: int) returns (outcome: ExitOutcome)
      requires Valid()
      modifies this, timers, host`runtimes
      ensures Valid() && (View(name), outcome) == old(View(name).AfterExit(Find(host.services, name), gen, code))
      ensures forall n :: n != name ==> View(n) == old(View(n))
    {
      if name in host.runtimes && host.runtimes[name].state == Failed {
        return AlreadyFailed;
      }
      if name in host.runtimes && (host.runtimes[name].state == Stopping || host.runtimes[name].state == Stopped) {
        host.SetState(name, Stopped, HealthUnknown);
        return Finished;
      }
      var count := if name in restarts then restarts[name] else 0;
      if name in host.services && ShouldRestart(host.services[name], count, code) {
        host.SetState(name, Restarting, HealthUnknown);
        var timer := SpendRestart(name, host.services[name], gen, count, Crash);
        return Rearmed(timer);
      }
      Fail(name);
      return FailedNow;
    }

    method SetHealth(name: string, health: Health)
      requires Valid()
      modifies this`readyOnce, host`runtimes
      ensures View(name) == old(View(name)).SetHealth(health)
      ensures forall n :: n != name ==> View(n) == old(View(n))
    {
      if name !in host.runtimes || IgnoresHealth(host.runtimes[name].state) {
        return;
      }
      var rt := host.runtimes[name].(health := health);
      if health == HealthHealthy {
        readyOnce := readyOnce[name := true];
      }
      if rt.state == Running || rt.state == Healthy || rt.state == Unhealthy {
        rt := rt.(state :=
          if health == HealthHealthy then Healthy
          else if health == HealthUnhealthy then Unhealthy
          else rt.state);
      }
      host.runtimes := host.runtimes[name := rt];
    }

    /** Returns whether a repeating probe was set up; a service without a health check counts as healthy at once. */
    method StartHealth(name: string, svc: Service, gen: nat) returns (probing: bool)
      requires Valid()
      modifies this`healthTimers, this`readyOnce, host`runtimes
      ensures probing == svc.hasHealthCheck
      ensures View(name) == old(View(name)).StartHealth(svc, gen)
      ensures forall n :: n != name ==> View(n) == old(View(n))
    {
      ClearHealthWatch(name);
      if !svc.hasHealthCheck {
        SetHealth(name, HealthHealthy);
        return false;
      }
      healthTimers := healthTimers[name := gen];
      return true;
    }

    /** The continuation of a probe of epoch `gen`. */
    method OnProbe(name: string, svc: Service, gen: nat, health: Health, inGrace: bool) returns (effect: Effect)
      requires Valid() && gen > 0
      modifies this, timers, host`runtimes
      ensures Valid() && (View(name), effect) == old(View(name)).OnProbe(svc, gen, health, inGrace)
      ensures ProbeLaw(old(View(name)), svc, gen, health, inGrace, View(name), effect)
      ensures forall n :: n != name ==> View(n) == old(View(n))
    {
      ProbeExactly(View(name), svc, gen, health, inGrace);
      var current := IsCurrentGeneration(name, gen);
      if !current {
        return Quiet;
      }
      if name in host.runtimes && IgnoresHealth(host.runtimes[name].state) {
        return Quiet;
      }
      if health == HealthUnhealthy && inGrace {
        return Quiet;
      }
      SetHealth(name, health);
      effect := MaybeRestartUnhealthy(name, svc, health, gen);
    }

    method MaybeRestartUnhealthy(name: string, svc: Service, health: Health, gen: nat) returns (effect: Effect)
      requires Valid()
      modifies this, timers, host`runtimes
      ensures Valid() && (View(name), effect) == old(View(name)).ApplyRules(svc, gen, health)
      ensures forall n :: n != name ==> View(n) == old(View(n))
    {
      if health != HealthUnhealthy {
        unhealthyStreak := unhealthyStreak[name := 0];
        if health == HealthHealthy {
          effect := MaybeForgiveRestarts(name, svc);
          return;
        }
        return Quiet;
      }
      healthyStreak := healthyStreak[name := 0];
      if !RestartsWhenUnhealthy(svc) {
        return Quiet;
      }
      if svc.waitForHealthy && !(name in readyOnce && readyOnce[name]) {
        return Quiet;
      }
      if name in timers.handles {
        return Quiet;
      }
      effect := CountUnhealthy(name, svc, gen);
    }

    /** The rest of MaybeRestartUnhealthy for a result that counts towards the streak. */
    method CountUnhealthy(name: string, svc: Service, gen: nat) returns (effect: Effect)
      requires Valid()
      modifies this`unhealthyStreak, this`restarts, timers, host`runtimes
      ensures Valid() && (View(name), effect) == old(View(name)).CountUnhealthy(svc, gen)
      ensures forall n :: n != name ==> View(n) == old(View(n))
    {
      var streak := (if name in unhealthyStreak then unhealthyStreak[name] else 0) + 1;
      unhealthyStreak := unhealthyStreak[name := streak];
      if streak < UnhealthyThreshold(svc) || (name in readyOnce && readyOnce[name]) {
        return Quiet;
      }
      effect := EndStreak(name, svc, gen);
    }

    method EndStreak(name: string, svc: Service, gen: nat) returns (effect: Effect)
      requires Valid()
      modifies this`unhealthyStreak, this`restarts, timers, host`runtimes
      ensures Valid() && (View(name), effect) == old(View(name)).EndStreak(svc, gen)
      ensures forall n :: n != name ==> View(n) == old(View(n))
    {
      unhealthyStreak := unhealthyStreak[name := 0];
      var count := if name in restarts then restarts[name] else 0;
      effect := Quiet;
      if count < MaxRetries(svc) {
        var timer := SpendRestart(name, svc, gen, count, UnhealthyStreak);
        effect := Armed(timer);
      }
    }

    method MaybeForgiveRestarts(name: string, svc: Service) returns (effect: Effect)
      requires Valid()
      modifies this`healthyStreak, this`restarts, host`runtimes
      ensures (View(name), effect) == old(View(name)).Forgive(svc)
      ensures forall n :: n != name ==> View(n) == old(View(n))
    {
      var streak := (if name in healthyStreak then healthyStreak[name] else 0) + 1;
      healthyStreak := healthyStreak[name := streak];
      if streak >= ResetThreshold(svc) && name in restarts && restarts[name] > 0 {
        BumpRestartCount(name, 0);
        return Forgave;
      }
      return Quiet;
    }
  }
}
