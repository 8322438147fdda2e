/** The restart budget, readiness, and what silences a probe, step by step. */
module LifecycleBudget {
  import opened Basics
  import opened Policies
  import opened HealthRules
  import opened LifecycleProtocol
  import opened LifecycleSafety

  /** The restarts armed since the last reset, counted and timed as the configuration says. */
  ghost predicate Budgeted(svc: Service, s: System, past: Past) {
    && |past.arms| == s.cell.restarts <= MaxRetries(svc)
    && (forall n :: 0 <= n < |past.arms| ==> past.arms[n] == DelayMs(svc, n))
    && (if s.cell.rt.Some? then s.cell.rt.value.restarts == s.cell.restarts else s.cell.restarts == 0)
  }

  lemma ExitSpendsOne(c: Cell, svc: Option<Service>, g: nat, code: int)
    ensures var (d, outcome) := c.OnExit(svc, g, code);
      match outcome
      case Rearmed(timer) =>
        && svc.Some? && c.restarts < MaxRetries(svc.value) && d.restarts == c.restarts + 1
        && d.timer == Some(timer) && timer == Timer(g, Crash, DelayMs(svc.value, c.restarts))
      case _ => d.restarts == c.restarts && (d.timer == c.timer || d.timer == None)
  {
  }

  lemma ProbeSpendsOne(c: Cell, svc: Service, g: nat, health: Health, inGrace: bool)
    ensures var (d, effect) := c.OnProbe(svc, g, health, inGrace);
      match effect
      case Armed(timer) =>
        && c.restarts < MaxRetries(svc) && d.restarts == c.restarts + 1 && c.timer == None
        && d.timer == Some(timer) && timer == Timer(g, UnhealthyStreak, DelayMs(svc, c.restarts))
      case Forgave => d.restarts == 0 < c.restarts && d.timer == c.timer
      case Quiet => d.restarts == c.restarts && d.timer == c.timer
  {
  }

  lemma BudgetKeptByResume(svc: Service, s: System, past: Past, a: Action)
    requires Good(s) && Budgeted(svc, s, past) && Enabled(s, a) && a.Resume?
    ensures Budgeted(svc, Next(svc, s, a), Remember(svc, past, s, a))
  {
  }

  lemma BudgetKeptByHooks(svc: Service, s: System, past: Past, a: Action)
    requires Good(s) && Budgeted(svc, s, past) && Enabled(s, a) && (a.HookDone? || a.WaitOver?)
    ensures Budgeted(svc, Next(svc, s, a), Remember(svc, past, s, a))
  {
  }

  lemma BudgetKeptByLaunches(svc: Service, s: System, past: Past, a: Action)
    requires Good(s) && Budgeted(svc, s, past) && Enabled(s, a) && (a.Resume? || a.HookDone? || a.WaitOver?)
    ensures Budgeted(svc, Next(svc, s, a), Remember(svc, past, s, a))
  {
    if a.Resume? {
      BudgetKeptByResume(svc, s, past, a);
    } else {
      BudgetKeptByHooks(svc, s, past, a);
    }
  }

  lemma BudgetKeptByStarts(svc: Service, s: System, past: Past, a: Action)
    requires Good(s) && Budgeted(svc, s, past) && Enabled(s, a) && StartSide(a)
    ensures Budgeted(svc, Next(svc, s, a), Remember(svc, past, s, a))
  {
    if a.Resume? || a.HookDone? || a.WaitOver? {
      BudgetKeptByLaunches(svc, s, past, a);
    }
  }

  lemma BudgetKeptByStops(svc: Service, s: System, past: Past, a: Action)
    requires Good(s) && Budgeted(svc, s, past) && Enabled(s, a)
    requires StopSide(a)
    ensures Budgeted(svc, Next(svc, s, a), Remember(svc, past, s, a))
  {
  }

  lemma BudgetKeptByEvents(svc: Service, s: System, past: Past, a: Action)
    requires Good(s) && Budgeted(svc, s, past) && Enabled(s, a)
    requires !StartSide(a) && !StopSide(a) && !a.DeliverExit? && !a.ProbeDone?
    ensures Budgeted(svc, Next(svc, s, a), Remember(svc, past, s, a))
  {
  }

  lemma BudgetKeptByOthers(svc: Service, s: System, past: Past, a: Action)
    requires Good(s) && Budgeted(svc, s, past) && Enabled(s, a)
    requires !StartSide(a) && !a.DeliverExit? && !a.ProbeDone?
    ensures Budgeted(svc, Next(svc, s, a), Remember(svc, past, s, a))
  {
    if StopSide(a) {
      BudgetKeptByStops(svc, s, past, a);
    } else {
      BudgetKeptByEvents(svc, s, past, a);
    }
  }

  lemma BudgetKeptByExit(svc: Service, s: System, past: Past, a: Action)
    requires Good(s) && Budgeted(svc, s, past) && Enabled(s, a) && a.DeliverExit?
    ensures Budgeted(svc, Next(svc, s, a), Remember(svc, past, s, a))
  {
    ExitSpendsOne(s.cell, if a.configured then Some(svc) else None, a.h.epoch, a.code);
  }

  lemma BudgetKeptByProbe(svc: Service, s: System, past: Past, a: Action)
    requires Good(s) && Budgeted(svc, s, past) && Enabled(s, a) && a.ProbeDone?
    ensures Budgeted(svc, Next(svc, s, a), Remember(svc, past, s, a))
  {
    assert Holds(s.tasks[a.k]) == Some(s.tasks[a.k].gen);
    ProbeSpendsOne(s.cell, svc, s.tasks[a.k].gen, a.health, a.inGrace);
  }

  lemma BudgetKept(svc: Service, s: System, past: Past, a: Action)
    requires Good(s) && Budgeted(svc, s, past) && Enabled(s, a)
    ensures Budgeted(svc, Next(svc, s, a), Remember(svc, past, s, a))
  {
    if a.DeliverExit? {
      BudgetKeptByExit(svc, s, past, a);
    } else if a.ProbeDone? {
      BudgetKeptByProbe(svc, s, past, a);
    } else if StartSide(a) {
      BudgetKeptByStarts(svc, s, past, a);
    } else {
      BudgetKeptByOthers(svc, s, past, a);
    }
  }

  /** The results counted by the healthy streak: the Healthy ones after the last Unhealthy one. */
  function TrailingHealthy(results: seq<Health>): nat {
    if results == [] then 0
    else
      var last := results[|results| - 1];
      if last == HealthUnhealthy then 0
      else TrailingHealthy(results[..|results| - 1]) + (if last == HealthHealthy then 1 else 0)
  }

  ghost predicate Ready(s: System, past: Past) {
    && s.cell.healthy == TrailingHealthy(past.results)
    && (s.cell.gen in past.proved ==> s.cell.ready)
    && (forall g :: g in past.proved ==> g <= s.cell.gen)
  }

  lemma TrailingHealthyStep(results: seq<Health>, health: Health)
    ensures TrailingHealthy(results + [health]) ==
      if health == HealthUnhealthy then 0 else TrailingHealthy(results) + (if health == HealthHealthy then 1 else 0)
  {
    assert (results + [health])[..|results|] == results;
  }

  /** What one probe continuation does to the streak of Healthy results and to readiness. */
  lemma ProbeStreak(c: Cell, svc: Service, g: nat, health: Health, inGrace: bool)
    requires g == c.gen ==> c.rt.Some?
    ensures var d := c.OnProbe(svc, g, health, inGrace).0;
      && d.gen == c.gen
      && (c.ready ==> d.ready)
      && (if !c.Applies(g, health, inGrace) then d == c
          else d.healthy ==
                 (if health == HealthUnhealthy then 0
                  else if health == HealthHealthy then c.healthy + 1
                  else c.healthy)
               && (health == HealthHealthy ==> d.ready))
  {
  }

  lemma ReadyKeptByProbe(svc: Service, s: System, past: Past, a: Action)
    requires Good(s) && Ready(s, past) && Enabled(s, a) && a.ProbeDone?
    ensures Ready(Next(svc, s, a), Remember(svc, past, s, a))
  {
    assert Holds(s.tasks[a.k]) == Some(s.tasks[a.k].gen);
    ProbeStreak(s.cell, svc, s.tasks[a.k].gen, a.health, a.inGrace);
    TrailingHealthyStep(past.results, a.health);
  }

  lemma ReadyKeptByResume(svc: Service, s: System, past: Past, a: Action)
    requires Good(s) && Ready(s, past) && Enabled(s, a) && a.Resume?
    ensures Ready(Next(svc, s, a), Remember(svc, past, s, a))
  {
  }

  lemma ReadyKeptByHooks(svc: Service, s: System, past: Past, a: Action)
    requires Good(s) && Ready(s, past) && Enabled(s, a) && (a.HookDone? || a.WaitOver?)
    ensures Ready(Next(svc, s, a), Remember(svc, past, s, a))
  {
  }

  lemma ReadyKeptByLaunches(svc: Service, s: System, past: Past, a: Action)
    requires Good(s) && Ready(s, past) && Enabled(s, a) && (a.Resume? || a.HookDone? || a.WaitOver?)
    ensures Ready(Next(svc, s, a), Remember(svc, past, s, a))
  {
    if a.Resume? {
      ReadyKeptByResume(svc, s, past, a);
    } else {
      ReadyKeptByHooks(svc, s, past, a);
    }
  }

  lemma ReadyKeptByStarts(svc: Service, s: System, past: Past, a: Action)
    requires Good(s) && Ready(s, past) && Enabled(s, a) && StartSide(a)
    ensures Ready(Next(svc, s, a), Remember(svc, past, s, a))
  {
    if a.Resume? || a.HookDone? || a.WaitOver? {
      ReadyKeptByLaunches(svc, s, past, a);
    }
  }

  lemma ReadyKeptByStops(svc: Service, s: System, past: Past, a: Action)
    requires Good(s) && Ready(s, past) && Enabled(s, a) && StopSide(a)
    ensures Ready(Next(svc, s, a), Remember(svc, past, s, a))
  {
  }

  /** An exit either leaves the epoch and its streak alone or ends the epoch. */
  lemma ExitStreak(c: Cell, svc: Option<Service>, g: nat, code: int)
    ensures var (d, outcome) := c.OnExit(svc, g, code);
      && (outcome == FailedNow ==> d.gen == c.gen + 1 && d.healthy == 0)
      && (outcome != FailedNow ==> d.gen == c.gen && d.healthy == c.healthy && d.ready == c.ready)
      && (outcome != Stale ==> d.Ignoring())
      && (outcome == Stale ==> d == c)
  {
  }

  lemma ReadyKeptByExit(svc: Service, s: System, past: Past, a: Action)
    requires Good(s) && Ready(s, past) && Enabled(s, a) && a.DeliverExit?
    ensures Ready(Next(svc, s, a), Remember(svc, past, s, a))
  {
    ExitStreak(s.cell, if a.configured then Some(svc) else None, a.h.epoch, a.code);
  }

  lemma ReadyKeptByTimer(svc: Service, s: System, past: Past, a: Action)
    requires Good(s) && Ready(s, past) && Enabled(s, a)
    requires a.TimerFires?
    ensures Ready(Next(svc, s, a), Remember(svc, past, s, a))
  {
  }

  lemma ReadyKeptByRest(svc: Service, s: System, past: Past, a: Action)
    requires Good(s) && Ready(s, past) && Enabled(s, a)
    requires !StartSide(a) && !StopSide(a) && !a.ProbeDone? && !a.DeliverExit? && !a.TimerFires?
    ensures Ready(Next(svc, s, a), Remember(svc, past, s, a))
  {
  }

  lemma ReadyKeptByEvents(svc: Service, s: System, past: Past, a: Action)
    requires Good(s) && Ready(s, past) && Enabled(s, a)
    requires !StartSide(a) && !StopSide(a) && !a.ProbeDone? && !a.DeliverExit?
    ensures Ready(Next(svc, s, a), Remember(svc, past, s, a))
  {
    if a.TimerFires? {
      ReadyKeptByTimer(svc, s, past, a);
    } else {
      ReadyKeptByRest(svc, s, past, a);
    }
  }

  lemma ReadyKept(svc: Service, s: System, past: Past, a: Action)
    requires Good(s) && Ready(s, past) && Enabled(s, a)
    ensures Ready(Next(svc, s, a), Remember(svc, past, s, a))
  {
    if a.ProbeDone? {
      ReadyKeptByProbe(svc, s, past, a);
    } else if StartSide(a) {
      ReadyKeptByStarts(svc, s, past, a);
    } else if StopSide(a) {
      ReadyKeptByStops(svc, s, past, a);
    } else if a.DeliverExit? {
      ReadyKeptByExit(svc, s, past, a);
    } else {
      ReadyKeptByEvents(svc, s, past, a);
    }
  }

  /** Once the exit of a launched epoch has been handled, its probes find a state that ignores them. */
  ghost predicate Silent(s: System, past: Past) {
    && past.silenced <= past.launched
    && (forall g :: g in past.launched ==> g <= s.cell.gen)
    && (forall k :: k in s.tasks && BeforeLaunch(s.tasks[k]) ==> s.tasks[k].gen !in past.launched)
    && (s.cell.gen in past.silenced ==> s.cell.Ignoring())
  }

  lemma SilentKeptByLaunches(svc: Service, s: System, past: Past, a: Action)
    requires Good(s) && Silent(s, past) && Enabled(s, a) && (a.HookDone? || a.WaitOver?)
    ensures Silent(Next(svc, s, a), Remember(svc, past, s, a))
  {
  }

  lemma SilentKeptByStarts(svc: Service, s: System, past: Past, a: Action)
    requires Good(s) && Silent(s, past) && Enabled(s, a) && StartSide(a) && !a.Resume?
    ensures Silent(Next(svc, s, a), Remember(svc, past, s, a))
  {
    if a.HookDone? || a.WaitOver? {
      SilentKeptByLaunches(svc, s, past, a);
    }
  }

  lemma SilentKeptByResume(svc: Service, s: System, past: Past, a: Action)
    requires Good(s) && Silent(s, past) && Enabled(s, a) && a.Resume?
    ensures Silent(Next(svc, s, a), Remember(svc, past, s, a))
  {
    assert IsStart(s.tasks[a.k]);
  }

  lemma SilentKeptByStops(svc: Service, s: System, past: Past, a: Action)
    requires Good(s) && Silent(s, past) && Enabled(s, a) && StopSide(a)
    ensures Silent(Next(svc, s, a), Remember(svc, past, s, a))
  {
  }

  lemma SilentKeptByProbe(svc: Service, s: System, past: Past, a: Action)
    requires Good(s) && Silent(s, past) && Enabled(s, a) && a.ProbeDone?
    ensures Silent(Next(svc, s, a), Remember(svc, past, s, a))
  {
    assert Holds(s.tasks[a.k]) == Some(s.tasks[a.k].gen);
    ProbeStreak(s.cell, svc, s.tasks[a.k].gen, a.health, a.inGrace);
  }

  lemma SilentKeptByExit(svc: Service, s: System, past: Past, a: Action)
    requires Good(s) && Silent(s, past) && Enabled(s, a) && a.DeliverExit?
    ensures Silent(Next(svc, s, a), Remember(svc, past, s, a))
  {
    ExitStreak(s.cell, if a.configured then Some(svc) else None, a.h.epoch, a.code);
  }

  lemma SilentKeptByEvents(svc: Service, s: System, past: Past, a: Action)
    requires Good(s) && Silent(s, past) && Enabled(s, a) && !StartSide(a) && !StopSide(a) && !a.ProbeDone?
    requires !a.DeliverExit?
    ensures Silent(Next(svc, s, a), Remember(svc, past, s, a))
  {
  }

  lemma SilentKept(svc: Service, s: System, past: Past, a: Action)
    requires Good(s) && Silent(s, past) && Enabled(s, a)
    ensures Silent(Next(svc, s, a), Remember(svc, past, s, a))
  {
    if a.Resume? {
      SilentKeptByResume(svc, s, past, a);
    } else if StartSide(a) {
      SilentKeptByStarts(svc, s, past, a);
    } else if StopSide(a) {
      SilentKeptByStops(svc, s, past, a);
    } else if a.ProbeDone? {
      SilentKeptByProbe(svc, s, past, a);
    } else if a.DeliverExit? {
      SilentKeptByExit(svc, s, past, a);
    } else {
      SilentKeptByEvents(svc, s, past, a);
    }
  }

  /**
   A probe result that arms a restart finds an epoch without a Healthy result and a service that
   need not wait for health.
   */
  lemma HealthArmNeedsUnproved(svc: Service, s: System, past: Past, a: Action)
    requires Good(s) && Ready(s, past) && Enabled(s, a)
    requires a.ProbeDone? && ArmedBy(svc, s, a).Some?
    ensures s.cell.gen !in past.proved && !svc.waitForHealthy
  {
  }

  lemma ForgivenessIsEarned(svc: Service, s: System, past: Past, a: Action)
    requires Good(s) && Ready(s, past) && Enabled(s, a) && Forgives(svc, s, a)
    ensures a.health == HealthHealthy && TrailingHealthy(past.results + [a.health]) >= ResetThreshold(svc)
  {
    TrailingHealthyStep(past.results, a.health);
  }

  // The waits of one budget.

  function Sum(delays: seq<real>): real {
    if delays == [] then 0.0 else Sum(delays[..|delays| - 1]) + delays[|delays| - 1]
  }

  /** What `n` restarts wait in all, in milliseconds. */
  function Total(svc: Service, n: nat): real {
    Backoff(svc) * ((Pow2(n) - 1) as real) * 1000.0
  }

  lemma {:induction false} SumOfDelays(svc: Service, delays: seq<real>)
    requires forall n :: 0 <= n < |delays| ==> delays[n] == DelayMs(svc, n)
    ensures Sum(delays) == Total(svc, |delays|)
  {
    if delays != [] {
      var n := |delays| - 1;
      SumOfDelays(svc, delays[..n]);
      var p := Pow2(n) as real;
      assert Pow2(n + 1) as real == 2.0 * p;
      assert Sum(delays) == Backoff(svc) * (p - 1.0) * 1000.0 + Backoff(svc) * p * 1000.0;
    }
  }

  lemma {:induction false} Pow2Grows(m: nat, n: nat)
    requires m <= n
    ensures Pow2(m) <= Pow2(n)
  {
    if m < n {
      Pow2Grows(m, n - 1);
    }
  }

  lemma MulMonotonic(b: real, x: real, y: real)
    requires 0.0 <= b && x <= y
    ensures b * x * 1000.0 <= b * y * 1000.0
  {
    assert b * y - b * x == b * (y - x) >= 0.0;
  }

  lemma TotalGrows(svc: Service, m: nat, n: nat)
    requires m <= n
    ensures Total(svc, m) <= Total(svc, n)
  {
    Pow2Grows(m, n);
    MulMonotonic(Backoff(svc), (Pow2(m) - 1) as real, (Pow2(n) - 1) as real);
  }

  lemma WaitsBounded(svc: Service, s: System, past: Past)
    requires Budgeted(svc, s, past)
    ensures Sum(past.arms) <= Total(svc, MaxRetries(svc))
  {
    SumOfDelays(svc, past.arms);
    TotalGrows(svc, |past.arms|, MaxRetries(svc));
  }
}
