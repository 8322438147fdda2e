/**
 What the rules of HealthRules do to a cell, said of the cell before and after.
 Every rule is decided by these laws, whatever functions it is put together from.
 */
module HealthLaws {
  import opened Basics
  import opened Policies
  import opened HealthRules

  // The decisions.

  /** The crash rule as a table of the configuration. */
  lemma CrashRestartsExactly(svc: Service, n: nat, code: int)
    ensures ShouldRestart(svc, n, code) <==>
      && svc.enabled != Some(false)
      && n < (if svc.maxRetries > 0 then svc.maxRetries else 3)
      && (|| svc.policy == Always
          || (code != 0 && svc.policy == OnFailure)
          || (code != 0 && svc.policy == Unset && svc.enabled == Some(true)))
  {
  }

  /** The unhealthy path follows a policy that is set whether or not restarts are enabled. */
  lemma UnhealthyRestartsExactly(svc: Service)
    ensures RestartsWhenUnhealthy(svc) <==>
      svc.policy == Always || svc.policy == OnFailure || (svc.policy == Unset && svc.enabled == Some(true))
  {
  }

  /**
   The numbers that are not configured: three unhealthy results, ten healthy ones, two seconds
   doubled with every restart.
   */
  lemma {:induction false} LimitsExactly(svc: Service, n: nat)
    ensures UnhealthyThreshold(svc) == if svc.unhealthyThreshold > 0 then svc.unhealthyThreshold else 3
    ensures ResetThreshold(svc) == if svc.healthyResetThreshold > 0 then svc.healthyResetThreshold else 10
    ensures DelayMs(svc, 0) == 1000.0 * if svc.backoffSeconds > 0.0 then svc.backoffSeconds else 2.0
    ensures DelayMs(svc, n + 1) == 2.0 * DelayMs(svc, n)
  {
    var b, p := Backoff(svc), Pow2(n) as real;
    assert Pow2(n + 1) as real == 2.0 * p;
    assert b * (2.0 * p) * 1000.0 == 2.0 * (b * p * 1000.0);
  }

  predicate IsStateOf(c: Cell, state: ServiceState) {
    c.rt.Some? && c.rt.value.state == state
  }

  /** A service that is on its way out, or out. */
  predicate IsDown(c: Cell) {
    IsStateOf(c, Restarting) || IsStateOf(c, Stopping) || IsStateOf(c, Stopped) || IsStateOf(c, Failed)
  }

  /**
   startOne leaves a name alone exactly if a live process is on record, or it is shown as coming
   up, up or healthy.
   */
  lemma ActiveExactly(c: Cell, onRecord: bool)
    ensures c.Active(onRecord) <==>
      || onRecord
      || IsStateOf(c, Starting) || IsStateOf(c, Running) || IsStateOf(c, Healthy)
      || (c.rt.Some? && c.rt.value.health == HealthHealthy && !IsDown(c))
  {
  }

  // An exit.

  /** Shown in another state, with unknown health and the same count. */
  predicate ShownAs(c: Cell, d: Cell, state: ServiceState) {
    d.rt == Some(Runtime(state, HealthUnknown, if c.rt.Some? then c.rt.value.restarts else 0))
  }

  /** Everything but the watch and what is shown is as it was. */
  predicate OnlyShown(c: Cell, d: Cell) {
    d == c.(watch := None, rt := d.rt)
  }

  /** The exit of a process of epoch `g` with `code` takes `c` to `d`. */
  predicate ExitLaw(c: Cell, svc: Option<Service>, g: nat, code: int, d: Cell, outcome: ExitOutcome) {
    if c.gen != g then d == c && outcome == Stale
    else
      && d.watch == None
      && (IsStateOf(c, Failed) ==> OnlyShown(c, d) && d.rt == c.rt && outcome == AlreadyFailed)
      && (IsStateOf(c, Stopping) || IsStateOf(c, Stopped) ==>
            OnlyShown(c, d) && ShownAs(c, d, Stopped) && outcome == Finished)
      && (!IsStateOf(c, Failed) && !IsStateOf(c, Stopping) && !IsStateOf(c, Stopped) ==>
            && (svc.Some? && ShouldRestart(svc.value, c.restarts, code) <==> IsStateOf(d, Restarting))
            && (IsStateOf(d, Restarting) <==> outcome.Rearmed?)
            && (outcome.Rearmed? ==> RestartIsArmed(c, svc.value, g, d, outcome.timer))
            && (!outcome.Rearmed? ==> EndsAsFailed(c, d) && outcome == FailedNow))
  }

  /** The epoch goes on, the restart waits in a timer of this epoch and is counted. */
  predicate RestartIsArmed(c: Cell, svc: Service, g: nat, d: Cell, timer: Timer) {
    && timer == Timer(g, Crash, DelayMs(svc, c.restarts)) && d.timer == Some(timer)
    && d.rt == Some(Runtime(Restarting, HealthUnknown, c.restarts + 1)) && d.restarts == c.restarts + 1
    && d.gen == c.gen && d.unhealthy == c.unhealthy && d.healthy == c.healthy && d.ready == c.ready
  }

  /** The epoch ends: no timer, no watch, nothing proved healthy; counts and the unhealthy streak stay. */
  predicate EndsAsFailed(c: Cell, d: Cell) {
    && ShownAs(c, d, Failed)
    && d.gen > c.gen && d.timer == None && d.watch == None
    && d.healthy == 0 && !d.ready && d.restarts == c.restarts && d.unhealthy == c.unhealthy
  }

  lemma ExitExactly(c: Cell, svc: Option<Service>, g: nat, code: int)
    ensures var (d, outcome) := c.OnExit(svc, g, code); ExitLaw(c, svc, g, code, d, outcome)
  {
  }

  // A probe.

  /** What the result is shown as: nothing is shown of a service that does not run. */
  predicate ResultShown(c: Cell, d: Cell, health: Health) {
    if c.rt.None? then d.rt == None
    else
      && d.rt.Some? && d.rt.value.health == health
      && (if IsStateOf(c, Running) || IsStateOf(c, Healthy) || IsStateOf(c, Unhealthy) then
            d.rt.value.state == (if health == HealthHealthy then Healthy
                                 else if health == HealthUnhealthy then Unhealthy
                                 else c.rt.value.state)
          else d.rt.value.state == c.rt.value.state)
  }

  /** An unhealthy result of a service that was never healthy completes the streak, and a restart is left. */
  predicate ArmsWith(c: Cell, svc: Service, health: Health) {
    && health == HealthUnhealthy && RestartsWhenUnhealthy(svc) && !svc.waitForHealthy && !c.ready && c.timer.None?
    && c.unhealthy + 1 >= UnhealthyThreshold(svc) && c.restarts < MaxRetries(svc)
  }

  predicate ForgivesWith(c: Cell, svc: Service, health: Health) {
    health == HealthHealthy && c.healthy + 1 >= ResetThreshold(svc) && c.restarts > 0
  }

  predicate ProbeLaw(c: Cell, svc: Service, g: nat, health: Health, inGrace: bool, d: Cell, effect: Effect) {
    if c.gen != g || IsDown(c) || (health == HealthUnhealthy && inGrace) then d == c && effect == Quiet
    else
      && d.gen == c.gen && d.watch == c.watch
      && ResultShown(c, d, health)
      && d.ready == (c.ready || (health == HealthHealthy && c.rt.Some?))
      && d.healthy == (if health == HealthHealthy then c.healthy + 1
                       else if health == HealthUnhealthy then 0
                       else c.healthy)
      && (effect.Armed? <==> ArmsWith(c, svc, health))
      && (effect == Forgave <==> ForgivesWith(c, svc, health))
      && d.restarts == (if effect.Armed? then c.restarts + 1 else if effect == Forgave then 0 else c.restarts)
      && (effect.Armed? ==> effect.timer == Timer(g, UnhealthyStreak, DelayMs(svc, c.restarts)))
      && d.timer == (if effect.Armed? then Some(effect.timer) else c.timer)
      && (c.rt.Some? ==> d.rt.value.restarts == if effect == Quiet then c.rt.value.restarts else d.restarts)
  }

  lemma ProbeExactly(c: Cell, svc: Service, g: nat, health: Health, inGrace: bool)
    ensures var (d, effect) := c.OnProbe(svc, g, health, inGrace); ProbeLaw(c, svc, g, health, inGrace, d, effect)
  {
  }

  // The beginning and the end of an epoch.

  /**
   With a health check the epoch is watched; without one the service counts as healthy, unless it
   is down or unknown.
   */
  lemma StartHealthExactly(c: Cell, svc: Service, g: nat)
    ensures var d := c.StartHealth(svc, g);
      && d == c.(watch := d.watch, rt := d.rt, ready := d.ready)
      && d.watch == (if svc.hasHealthCheck then Some(g) else None)
      && (if svc.hasHealthCheck || IsDown(c) then d.rt == c.rt && d.ready == c.ready
          else ResultShown(c, d, HealthHealthy) && (d.ready <==> c.ready || c.rt.Some?)
               && (c.rt.Some? ==> d.rt.value.restarts == c.rt.value.restarts))
  {
  }

  lemma FailExactly(c: Cell)
    ensures EndsAsFailed(c, c.Fail())
  {
  }

  /** Forgetting leaves nothing of the name but a newer epoch and what is shown. */
  lemma ForgetExactly(c: Cell)
    ensures var d := c.Forget(); d.gen > c.gen && d == Cell(d.gen, 0, 0, 0, false, None, None, c.rt)
  {
  }
}
