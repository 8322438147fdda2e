/**
 What one service's share of the health monitor and of the runtime table looks
 like, and the effect on it of each synchronous stretch of code. HealthMonitor
 is proved against these functions; the protocol steps are built from them.
 */
module HealthRules {
  import opened Basics
  import opened Policies

  datatype ServiceState =
    | Unknown | Starting | Running | Healthy | Unhealthy
    | Stopping | Stopped | Failed | Restarting

  datatype Health = HealthUnknown | HealthHealthy | HealthUnhealthy

  datatype Runtime = Runtime(state: ServiceState, health: Health, restarts: nat)

  datatype Cause = Crash | UnhealthyStreak

  /** A scheduled restart: the epoch it was armed in, why, and after which delay it fires. */
  datatype Timer = Timer(gen: nat, cause: Cause, delayMs: real)

  datatype Effect = Quiet | Armed(timer: Timer) | Forgave

  datatype ExitOutcome = Stale | AlreadyFailed | Finished | Rearmed(timer: Timer) | FailedNow

  predicate IgnoresHealth(state: ServiceState) {
    state == Restarting || state == Stopping || state == Stopped || state == Failed
  }

  /** Epoch 0 means that the name never had one: every callback holds a positive epoch. */
  datatype Cell = Cell(
    gen: nat,
    restarts: nat,
    unhealthy: nat,
    healthy: nat,
    ready: bool,
    timer: Option<Timer>,
    watch: Option<nat>,
    rt: Option<Runtime>)
  {
    function SetState(state: ServiceState, health: Health): Cell {
      this.(rt := Some(Runtime(state, health, if rt.Some? then rt.value.restarts else 0)))
    }

    function Bump(): Cell {
      this.(gen := gen + 1, healthy := 0, ready := false)
    }

    function SetCount(n: nat): Cell {
      this.(restarts := n, rt := if rt.Some? then Some(rt.value.(restarts := n)) else None)
    }

    function ResetCount(): Cell {
      this.(healthy := 0).SetCount(0)
    }

    function Forget(): Cell {
      this.(watch := None, timer := None, restarts := 0, unhealthy := 0).Bump()
    }

    /** The part of the host's fail() that runs before its first await. */
    function Fail(): Cell {
      this.(watch := None, timer := None).Bump().SetState(Failed, HealthUnknown)
    }

    function Arm(timer: Timer): Cell {
      this.(timer := Some(timer))
    }

    predicate Ignoring() {
      rt.Some? && IgnoresHealth(rt.value.state)
    }

    function SetHealth(health: Health): Cell {
      if rt.None? || Ignoring() then this
      else
        var state := rt.value.state;
        var shown :=
          if state != Running && state != Healthy && state != Unhealthy then state
          else if health == HealthHealthy then Healthy
          else if health == HealthUnhealthy then Unhealthy
          else state;
        this.(rt := Some(rt.value.(state := shown, health := health)),
              ready := ready || health == HealthHealthy)
    }

    function OnExit(svc: Option<Service>, g: nat, code: int): (Cell, ExitOutcome) {
      if gen != g then (this, Stale) else this.(watch := None).AfterExit(svc, g, code)
    }

    function AfterExit(svc: Option<Service>, g: nat, code: int): (Cell, ExitOutcome) {
      if rt.Some? && rt.value.state == Failed then (this, AlreadyFailed)
      else if rt.Some? && (rt.value.state == Stopping || rt.value.state == Stopped) then
        (SetState(Stopped, HealthUnknown), Finished)
      else if svc.Some? && ShouldRestart(svc.value, restarts, code) then
        var timer := Timer(g, Crash, DelayMs(svc.value, restarts));
        (SetState(Restarting, HealthUnknown).SetCount(restarts + 1).Arm(timer), Rearmed(timer))
      else (Fail(), FailedNow)
    }

    function StartHealth(svc: Service, g: nat): Cell {
      if svc.hasHealthCheck then this.(watch := Some(g))
      else this.(watch := None).SetHealth(HealthHealthy)
    }

    /** The continuation of one probe: guards, then the shown health, then the restart rules. */
    function OnProbe(svc: Service, g: nat, health: Health, inGrace: bool): (Cell, Effect) {
      if gen != g || Ignoring() || (health == HealthUnhealthy && inGrace) then (this, Quiet)
      else SetHealth(health).ApplyRules(svc, g, health)
    }

    /** Whether the result passes OnProbe's guards. */
    predicate Applies(g: nat, health: Health, inGrace: bool) {
      gen == g && !Ignoring() && !(health == HealthUnhealthy && inGrace)
    }

    function ApplyRules(svc: Service, g: nat, health: Health): (Cell, Effect) {
      if health == HealthHealthy then this.(unhealthy := 0).Forgive(svc)
      else if health == HealthUnknown then (this.(unhealthy := 0), Quiet)
      else
        var c := this.(healthy := 0);
        if c.Counts(svc) then c.CountUnhealthy(svc, g) else (c, Quiet)
    }

    /** Whether an Unhealthy result adds to the streak. */
    predicate Counts(svc: Service) {
      RestartsWhenUnhealthy(svc) && !(svc.waitForHealthy && !ready) && timer.None?
    }

    /** Whether one more Unhealthy result that counts ends the streak. */
    predicate EndsStreak(svc: Service) {
      unhealthy + 1 >= UnhealthyThreshold(svc) && !ready
    }

    function Forgive(svc: Service): (Cell, Effect) {
      var c := this.(healthy := healthy + 1);
      if c.healthy >= ResetThreshold(svc) && restarts > 0 then (c.SetCount(0), Forgave) else (c, Quiet)
    }

    function CountUnhealthy(svc: Service, g: nat): (Cell, Effect) {
      if EndsStreak(svc) then EndStreak(svc, g) else (this.(unhealthy := unhealthy + 1), Quiet)
    }

    /** The streak is long enough: it starts over, and a restart is armed if one is left. */
    function EndStreak(svc: Service, g: nat): (Cell, Effect) {
      var c := this.(unhealthy := 0);
      if restarts >= MaxRetries(svc) then (c, Quiet)
      else
        var timer := Timer(g, UnhealthyStreak, DelayMs(svc, restarts));
        (c.SetCount(restarts + 1).Arm(timer), Armed(timer))
    }

    /** serviceIsActive, given whether a live process is on record for the name. */
    predicate Active(onRecord: bool) {
      || onRecord
      || (rt.Some? && !Ignoring()
          && (rt.value.health == HealthHealthy || rt.value.state == Healthy
              || rt.value.state == Starting || rt.value.state == Running))
    }
  }

  const Untracked := Cell(0, 0, 0, 0, false, None, None, None)
}
