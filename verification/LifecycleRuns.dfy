/** The guarantees of the lifecycle protocol over whole runs. */
module LifecycleRuns {
  import opened Basics
  import opened Policies
  import opened HealthRules
  import opened LifecycleProtocol
  import opened LifecycleSafety
  import opened LifecycleCover
  import opened LifecycleBudget

  ghost predicate Invariant(svc: Service, w: World) {
    && Good(w.sys)
    && Covered(w.sys, w.past)
    && Tracked(w.sys, w.past)
    && Budgeted(svc, w.sys, w.past)
    && Ready(w.sys, w.past)
    && Silent(w.sys, w.past)
  }

  lemma InvariantStep(svc: Service, w: World, a: Action, w': World)
    requires Invariant(svc, w) && Step(svc, w, a, w')
    ensures Invariant(svc, w')
  {
    GoodKept(svc, w.sys, a);
    if StartSide(a) {
      if a.Resume? || a.HookDone? || a.WaitOver? {
        CoverByLaunches(svc, w.sys, w.past, a);
      } else {
        CoverByStarts(svc, w.sys, w.past, a);
      }
    } else if StopSide(a) {
      CoverByStops(svc, w.sys, w.past, a);
    } else {
      CoverByEvents(svc, w.sys, w.past, a);
    }
    TrackedKept(svc, w.sys, w.past, a);
    BudgetKept(svc, w.sys, w.past, a);
    ReadyKept(svc, w.sys, w.past, a);
    SilentKept(svc, w.sys, w.past, a);
  }

  lemma {:induction false} InvariantAt(svc: Service, worlds: seq<World>, actions: seq<Action>, i: nat)
    requires Run(svc, worlds, actions) && i < |worlds|
    ensures Invariant(svc, worlds[i])
  {
    if i > 0 {
      InvariantAt(svc, worlds, actions, i - 1);
      assert Step(svc, worlds[i - 1], actions[i - 1], worlds[i]);
      InvariantStep(svc, worlds[i - 1], actions[i - 1], worlds[i]);
    }
  }

  /** The process at which the stop that this action ends was aimed. */
  function StopTargetAt(s: System, a: Action): Option<Handle> {
    if (a.StopDone? || a.StopFails?) && a.k in s.tasks && IsStop(s.tasks[a.k]) then s.tasks[a.k].target else None
  }

  ghost predicate GivesUp(w: World, a: Action, h: Handle) {
    a.StopFails? && StopTargetAt(w.sys, a) == Some(h)
  }

  /** The name of a live process of the current epoch is forgotten. */
  ghost predicate Forgets(w: World, a: Action, h: Handle) {
    a.ForgetName? && w.sys.record == Some(h) && h in w.sys.live && h.epoch == w.sys.cell.gen
  }

  /** This was done at `j`, and no stop plan was entered from then to `i`. */
  ghost predicate ForgottenSince(worlds: seq<World>, actions: seq<Action>, j: nat, i: nat, h: Handle)
    requires |worlds| == |actions| + 1 && i < |worlds|
  {
    j < i && Forgets(worlds[j], actions[j], h) && forall m :: j < m < i ==> !actions[m].EnterStop?
  }

  /**
   No orphan on record: a live process on record belongs to the current epoch, or
   a continuation that will stop or is stopping it is pending, or a stop of it failed,
   or its name was forgotten while it was current and no stop plan came since.
   */
  lemma NoOrphanOnRecord(svc: Service, worlds: seq<World>, actions: seq<Action>, i: nat, h: Handle)
    requires Run(svc, worlds, actions) && i < |worlds|
    requires worlds[i].sys.record == Some(h) && h in worlds[i].sys.live
    ensures
      || h.epoch == worlds[i].sys.cell.gen
      || (exists k :: AnsweredBy(worlds[i].sys, h, k))
      || (exists j :: 0 <= j < i && GivesUp(worlds[j], actions[j], h))
      || (exists j :: ForgottenSince(worlds, actions, j, i, h))
  {
    InvariantAt(svc, worlds, actions, i);
    if h in worlds[i].past.gaveUp {
      var j := GaveUpWhen(svc, worlds, actions, i, h);
    } else if h in worlds[i].past.forgotten {
      var j := ForgottenWhen(svc, worlds, actions, i, h);
    }
  }

  lemma {:induction false} ForgottenWhen(svc: Service, worlds: seq<World>, actions: seq<Action>, i: nat, h: Handle)
    returns (j: nat)
    requires Run(svc, worlds, actions) && i < |worlds| && h in worlds[i].past.forgotten
    ensures ForgottenSince(worlds, actions, j, i, h)
  {
    assert Step(svc, worlds[i - 1], actions[i - 1], worlds[i]);
    if h in ForgottenBy(worlds[i - 1].sys, actions[i - 1]) {
      j := i - 1;
    } else {
      j := ForgottenWhen(svc, worlds, actions, i - 1, h);
    }
  }

  lemma {:induction false} GaveUpWhen(svc: Service, worlds: seq<World>, actions: seq<Action>, i: nat, h: Handle)
    returns (j: nat)
    requires Run(svc, worlds, actions) && i < |worlds| && h in worlds[i].past.gaveUp
    ensures j < i && GivesUp(worlds[j], actions[j], h)
  {
    assert Step(svc, worlds[i - 1], actions[i - 1], worlds[i]);
    if h in worlds[i - 1].past.gaveUp {
      j := GaveUpWhen(svc, worlds, actions, i - 1, h);
    } else {
      j := i - 1;
    }
  }

  /** A stop that returns while another live process is on record, which it then takes off. */
  ghost predicate Displaces(w: World, a: Action, h: Handle) {
    a.StopDone? && StopTargetAt(w.sys, a).Some? && StopTargetAt(w.sys, a) != Some(h) && w.sys.record == Some(h) &&
      h in w.sys.live
  }

  /** A live process is on record unless an earlier stop of another process displaced it. */
  lemma {:induction false} LiveIsOnRecord(svc: Service, worlds: seq<World>, actions: seq<Action>, i: nat, h: Handle)
    requires Run(svc, worlds, actions) && i < |worlds| && h in worlds[i].sys.live
    ensures worlds[i].sys.record == Some(h) || exists j :: 0 <= j < i && Displaces(worlds[j], actions[j], h)
  {
    InvariantAt(svc, worlds, actions, i);
    if h in worlds[i].past.displaced {
      var j := DisplacedWhen(svc, worlds, actions, i, h);
    }
  }

  lemma {:induction false} DisplacedWhen(svc: Service, worlds: seq<World>, actions: seq<Action>, i: nat, h: Handle)
    returns (j: nat)
    requires Run(svc, worlds, actions) && i < |worlds| && h in worlds[i].past.displaced
    ensures j < i && Displaces(worlds[j], actions[j], h)
  {
    assert Step(svc, worlds[i - 1], actions[i - 1], worlds[i]);
    if h in worlds[i - 1].past.displaced {
      j := DisplacedWhen(svc, worlds, actions, i - 1, h);
    } else {
      j := i - 1;
    }
  }

  // Stop is final.

  /** Nothing that could start or stop a process is waiting. */
  ghost predicate Drained(s: System) {
    forall k :: k in s.tasks ==> !IsStart(s.tasks[k]) && !IsStop(s.tasks[k]) && !s.tasks[k].PlanWaiting?
  }

  lemma StaleKeptByStarts(svc: Service, s: System, a: Action, top: nat)
    requires Good(s) && Enabled(s, a) && StartSide(a) && !a.EnterStart?
    requires HoldersUpTo(s, top) && top < s.cell.gen
    ensures HoldersUpTo(Next(svc, s, a), top) && s.cell.gen <= Next(svc, s, a).cell.gen
  {
    assert Held(Holds(s.tasks[a.k]), top);
  }

  lemma StaleKeptByStops(svc: Service, s: System, a: Action, top: nat)
    requires Good(s) && Enabled(s, a) && StopSide(a)
    requires HoldersUpTo(s, top) && top < s.cell.gen
    ensures HoldersUpTo(Next(svc, s, a), top) && s.cell.gen <= Next(svc, s, a).cell.gen
  {
  }

  lemma StaleKeptByEvents(svc: Service, s: System, a: Action, top: nat)
    requires Good(s) && Enabled(s, a) && !StartSide(a) && !StopSide(a)
    requires HoldersUpTo(s, top) && top < s.cell.gen
    ensures HoldersUpTo(Next(svc, s, a), top) && s.cell.gen <= Next(svc, s, a).cell.gen
  {
    assert a.ProbeDone? ==> Held(Holds(s.tasks[a.k]), top);
  }

  lemma StaleKept(svc: Service, w: World, a: Action, w': World, top: nat)
    requires Invariant(svc, w) && Step(svc, w, a, w') && !a.EnterStart?
    requires HoldersUpTo(w.sys, top) && top < w.sys.cell.gen
    ensures HoldersUpTo(w'.sys, top) && top < w'.sys.cell.gen
  {
    if StartSide(a) {
      StaleKeptByStarts(svc, w.sys, a, top);
    } else if StopSide(a) {
      StaleKeptByStops(svc, w.sys, a, top);
    } else {
      StaleKeptByEvents(svc, w.sys, a, top);
    }
  }

  lemma StopOutdates(svc: Service, w: World, a: Action, w': World)
    requires Invariant(svc, w) && Step(svc, w, a, w') && a.EnterStop?
    ensures HoldersUpTo(w'.sys, w.sys.cell.gen) && w.sys.cell.gen < w'.sys.cell.gen
  {
  }

  /** After a stop, and until startOne is entered again, every callback holds an epoch from before the stop. */
  lemma {:induction false} HoldersStayStale(svc: Service, worlds: seq<World>, actions: seq<Action>, i: nat, j: nat)
    requires Run(svc, worlds, actions) && i < j < |worlds| && actions[i].EnterStop?
    requires forall m :: i < m < j ==> !actions[m].EnterStart?
    ensures HoldersUpTo(worlds[j].sys, worlds[i].sys.cell.gen) && worlds[i].sys.cell.gen < worlds[j].sys.cell.gen
  {
    InvariantAt(svc, worlds, actions, j - 1);
    if i + 1 < j {
      HoldersStayStale(svc, worlds, actions, i, j - 1);
      StaleKept(svc, worlds[j - 1], actions[j - 1], worlds[j], worlds[i].sys.cell.gen);
    } else {
      StopOutdates(svc, worlds[i], actions[i], worlds[j]);
    }
  }

  /**
   A stop is final: if startOne is not entered after it, then once the pending
   starts and stops have run, a process that is still live survived a failed stop
   or was displaced from the record.
   */
  lemma StopIsFinal(svc: Service, worlds: seq<World>, actions: seq<Action>, i: nat, j: nat, h: Handle)
    requires Run(svc, worlds, actions) && i < j < |worlds| && actions[i].EnterStop?
    requires forall m :: i < m < j ==> !actions[m].EnterStart?
    requires Drained(worlds[j].sys) && h in worlds[j].sys.live
    ensures exists m :: 0 <= m < j && (GivesUp(worlds[m], actions[m], h) || Displaces(worlds[m], actions[m], h))
  {
    HoldersStayStale(svc, worlds, actions, i, j);
    LiveIsOnRecord(svc, worlds, actions, j, h);
    if worlds[j].sys.record == Some(h) {
      NoOrphanOnRecord(svc, worlds, actions, j, h);
      if m :| ForgottenSince(worlds, actions, m, j, h) {
        NotForgottenAfterStop(svc, worlds, actions, i, m, h);
      }
    }
  }

  /** After a stop no process is current, so none is forgotten while it is. */
  lemma NotForgottenAfterStop(svc: Service, worlds: seq<World>, actions: seq<Action>, i: nat, m: nat, h: Handle)
    requires Run(svc, worlds, actions) && i < |actions| && m < |actions| && actions[i].EnterStop?
    requires forall l :: i < l < m ==> !actions[l].EnterStart?
    requires Forgets(worlds[m], actions[m], h)
    ensures m < i
  {
    if i < m {
      HoldersStayStale(svc, worlds, actions, i, m);
    }
  }

  /** In particular no timer armed before the stop starts anything: firing it leaves tasks and processes alone. */
  lemma OldTimersAreInert(svc: Service, worlds: seq<World>, actions: seq<Action>, i: nat, j: nat)
    requires Run(svc, worlds, actions) && i < j < |actions| && actions[i].EnterStop?
    requires forall m :: i < m < j ==> !actions[m].EnterStart?
    requires actions[j].TimerFires?
    ensures worlds[j + 1].sys == worlds[j].sys.(cell := worlds[j].sys.cell.(timer := None))
  {
    HoldersStayStale(svc, worlds, actions, i, j);
    assert Step(svc, worlds[j], actions[j], worlds[j + 1]);
  }

  lemma GrowsByStarts(svc: Service, w: World, a: Action, w': World)
    requires Step(svc, w, a, w') && StartSide(a)
    ensures w.sys.cell.gen <= w'.sys.cell.gen
  {
  }

  lemma GrowsByStops(svc: Service, w: World, a: Action, w': World)
    requires Step(svc, w, a, w') && StopSide(a)
    ensures w.sys.cell.gen <= w'.sys.cell.gen && (a.EnterStop? ==> w.sys.cell.gen < w'.sys.cell.gen)
  {
  }

  lemma GrowsByRest(svc: Service, s: System, a: Action)
    requires Enabled(s, a) && !StartSide(a) && !StopSide(a) && !a.DeliverExit? && !a.ProbeDone?
    ensures s.cell.gen <= Next(svc, s, a).cell.gen && (a.ForgetName? ==> s.cell.gen < Next(svc, s, a).cell.gen)
  {
  }

  lemma GrowsByExit(svc: Service, s: System, a: Action)
    requires Enabled(s, a) && a.DeliverExit?
    ensures s.cell.gen <= Next(svc, s, a).cell.gen
  {
    ExitStreak(s.cell, if a.configured then Some(svc) else None, a.h.epoch, a.code);
  }

  lemma GrowsByProbe(svc: Service, s: System, a: Action)
    requires Good(s) && Enabled(s, a) && a.ProbeDone?
    ensures s.cell.gen <= Next(svc, s, a).cell.gen
  {
    assert Holds(s.tasks[a.k]) == Some(s.tasks[a.k].gen);
    ProbeStreak(s.cell, svc, s.tasks[a.k].gen, a.health, a.inGrace);
  }

  lemma GrowsByEvents(svc: Service, w: World, a: Action, w': World)
    requires Invariant(svc, w) && Step(svc, w, a, w') && !StartSide(a) && !StopSide(a)
    ensures w.sys.cell.gen <= w'.sys.cell.gen && (a.ForgetName? ==> w.sys.cell.gen < w'.sys.cell.gen)
  {
    if a.DeliverExit? {
      GrowsByExit(svc, w.sys, a);
    } else if a.ProbeDone? {
      GrowsByProbe(svc, w.sys, a);
    } else {
      GrowsByRest(svc, w.sys, a);
    }
  }

  lemma GenerationGrows(svc: Service, w: World, a: Action, w': World)
    requires Invariant(svc, w) && Step(svc, w, a, w')
    ensures w.sys.cell.gen <= w'.sys.cell.gen
    ensures a.EnterStop? || a.ForgetName? ==> w.sys.cell.gen < w'.sys.cell.gen
  {
    if StartSide(a) {
      GrowsByStarts(svc, w, a, w');
    } else if StopSide(a) {
      GrowsByStops(svc, w, a, w');
    } else {
      GrowsByEvents(svc, w, a, w');
    }
  }

  lemma GrowsAt(svc: Service, worlds: seq<World>, actions: seq<Action>, i: nat)
    requires Run(svc, worlds, actions) && i < |actions|
    ensures worlds[i].sys.cell.gen <= worlds[i + 1].sys.cell.gen
    ensures actions[i].EnterStop? || actions[i].ForgetName? ==> worlds[i].sys.cell.gen < worlds[i + 1].sys.cell.gen
  {
    InvariantAt(svc, worlds, actions, i);
    GenerationGrows(svc, worlds[i], actions[i], worlds[i + 1]);
  }

  lemma {:induction false} Ascends(numbers: seq<nat>, i: nat, j: nat)
    requires forall k :: 0 <= k < |numbers| - 1 ==> numbers[k] <= numbers[k + 1]
    requires i <= j < |numbers|
    ensures numbers[i] <= numbers[j]
  {
    if i < j {
      Ascends(numbers, i, j - 1);
      assert numbers[j - 1] <= numbers[j - 1 + 1];
    }
  }

  /** Epochs never shrink, across forgetting and re-adding the name too. */
  lemma GenerationsGrow(svc: Service, worlds: seq<World>, actions: seq<Action>, i: nat, j: nat)
    requires Run(svc, worlds, actions) && i <= j < |worlds|
    ensures worlds[i].sys.cell.gen <= worlds[j].sys.cell.gen
  {
    var epochs: seq<nat> := seq(|worlds|, k requires 0 <= k < |worlds| => worlds[k].sys.cell.gen);
    forall k | 0 <= k < |epochs| - 1
      ensures epochs[k] <= epochs[k + 1]
    {
      GrowsAt(svc, worlds, actions, k);
    }
    Ascends(epochs, i, j);
  }

  /** A stop, or forgetting the name, mints an epoch that no world before it had reached. */
  lemma StopMintsNewEpoch(svc: Service, worlds: seq<World>, actions: seq<Action>, i: nat, m: nat, j: nat)
    requires Run(svc, worlds, actions) && i <= m < j < |worlds| && (actions[m].EnterStop? || actions[m].ForgetName?)
    ensures worlds[i].sys.cell.gen < worlds[j].sys.cell.gen
  {
    GenerationsGrow(svc, worlds, actions, i, m);
    GrowsAt(svc, worlds, actions, m);
    GenerationsGrow(svc, worlds, actions, m + 1, j);
  }

  // What an exit silences.

  lemma {:induction false} PastOnlyGrows(svc: Service, worlds: seq<World>, actions: seq<Action>, i: nat, j: nat)
    requires Run(svc, worlds, actions) && i <= j < |worlds|
    ensures worlds[i].past.launched <= worlds[j].past.launched
    ensures worlds[i].past.silenced <= worlds[j].past.silenced
    ensures worlds[i].past.proved <= worlds[j].past.proved
  {
    if i < j {
      PastOnlyGrows(svc, worlds, actions, i, j - 1);
      assert Step(svc, worlds[j - 1], actions[j - 1], worlds[j]);
    }
  }

  /**
   Launch of epoch `g` at `l`, exit of a process of epoch `g` handled at `i` while `g`
   is current: a probe of `g` that finishes later changes nothing in the cell.
   */
  lemma ExitSilencesProbes(svc: Service, worlds: seq<World>, actions: seq<Action>, l: nat, i: nat, j: nat, g: nat)
    requires Run(svc, worlds, actions) && l < i < j < |actions|
    requires Enabled(worlds[l].sys, actions[l]) && Launches(worlds[l].sys, actions[l]) && worlds[l].sys.cell.gen == g
    requires actions[i].DeliverExit? && actions[i].h.epoch == worlds[i].sys.cell.gen == g
    requires actions[j].ProbeDone? && Enabled(worlds[j].sys, actions[j]) && worlds[j].sys.tasks[actions[j].k].gen == g
    ensures worlds[j + 1].sys.cell == worlds[j].sys.cell
  {
    assert Step(svc, worlds[l], actions[l], worlds[l + 1]);
    PastOnlyGrows(svc, worlds, actions, l + 1, i);
    assert Step(svc, worlds[i], actions[i], worlds[i + 1]);
    PastOnlyGrows(svc, worlds, actions, i + 1, j);
    InvariantAt(svc, worlds, actions, j);
    assert Step(svc, worlds[j], actions[j], worlds[j + 1]);
  }

  // The restart budget.

  /** Step `k` of the run arms a restart. */
  ghost predicate ArmsAt(svc: Service, worlds: seq<World>, actions: seq<Action>, k: nat)
    requires k < |actions| && |worlds| == |actions| + 1
  {
    Enabled(worlds[k].sys, actions[k]) && ArmedBy(svc, worlds[k].sys, actions[k]).Some?
  }

  ghost function ArmsBetween(svc: Service, worlds: seq<World>, actions: seq<Action>, i: nat, j: nat): nat
    requires i <= j <= |actions| && |worlds| == |actions| + 1
    decreases j - i
  {
    if i == j then 0
    else ArmsBetween(svc, worlds, actions, i, j - 1) + if ArmsAt(svc, worlds, actions, j - 1) then 1 else 0
  }

  /** Step `k` of the run leaves the count alone or adds to it. */
  ghost predicate KeepsBudget(svc: Service, worlds: seq<World>, actions: seq<Action>, k: nat)
    requires k < |actions| && |worlds| == |actions| + 1
  {
    Enabled(worlds[k].sys, actions[k]) && !ManualReset(actions[k]) && !Forgives(svc, worlds[k].sys, actions[k])
  }

  lemma ArmTakesOneUnit(svc: Service, w: World, a: Action, w': World)
    requires Invariant(svc, w) && Step(svc, w, a, w') && !ManualReset(a) && !Forgives(svc, w.sys, a)
    ensures w'.sys.cell.restarts == w.sys.cell.restarts + if ArmedBy(svc, w.sys, a).Some? then 1 else 0
  {
    InvariantStep(svc, w, a, w');
    assert |w'.past.arms| == |w.past.arms| + if ArmedBy(svc, w.sys, a).Some? then 1 else 0;
  }

  lemma UnitAt(svc: Service, worlds: seq<World>, actions: seq<Action>, k: nat)
    requires Run(svc, worlds, actions) && k < |actions| && KeepsBudget(svc, worlds, actions, k)
    ensures worlds[k + 1].sys.cell.restarts ==
            worlds[k].sys.cell.restarts + if ArmsAt(svc, worlds, actions, k) then 1 else 0
  {
    InvariantAt(svc, worlds, actions, k);
    ArmTakesOneUnit(svc, worlds[k], actions[k], worlds[k + 1]);
  }

  lemma {:induction false} UnitsAddUp(counts: seq<int>, svc: Service, worlds: seq<World>, actions: seq<Action>,
                                      i: nat, j: nat)
    requires i <= j <= |actions| && |counts| == |worlds| == |actions| + 1
    requires forall k :: i <= k < j ==> counts[k + 1] == counts[k] + if ArmsAt(svc, worlds, actions, k) then 1 else 0
    ensures counts[j] == counts[i] + ArmsBetween(svc, worlds, actions, i, j)
    decreases j - i
  {
    if i < j {
      UnitsAddUp(counts, svc, worlds, actions, i, j - 1);
      var k := j - 1;
      assert counts[k + 1] == counts[k] + if ArmsAt(svc, worlds, actions, k) then 1 else 0;
    }
  }

  /**
   Between two resets of the count every armed restart, by a crash or by probes, takes one unit of
   the same budget.
   */
  lemma RestartBudget(svc: Service, worlds: seq<World>, actions: seq<Action>, i: nat, j: nat)
    requires Run(svc, worlds, actions) && i <= j < |worlds|
    requires forall k :: i <= k < j ==> KeepsBudget(svc, worlds, actions, k)
    ensures worlds[j].sys.cell.restarts ==
            worlds[i].sys.cell.restarts + ArmsBetween(svc, worlds, actions, i, j) <= MaxRetries(svc)
    ensures worlds[j].sys.cell.rt.Some? ==> worlds[j].sys.cell.rt.value.restarts == worlds[j].sys.cell.restarts
  {
    var counts: seq<int> := seq(|worlds|, k requires 0 <= k < |worlds| => worlds[k].sys.cell.restarts);
    forall k | i <= k < j
      ensures counts[k + 1] == counts[k] + if ArmsAt(svc, worlds, actions, k) then 1 else 0
    {
      UnitAt(svc, worlds, actions, k);
    }
    UnitsAddUp(counts, svc, worlds, actions, i, j);
    CountIsBounded(svc, worlds, actions, j);
  }

  lemma CountIsBounded(svc: Service, worlds: seq<World>, actions: seq<Action>, i: nat)
    requires Run(svc, worlds, actions) && i < |worlds|
    ensures worlds[i].sys.cell.restarts <= MaxRetries(svc)
    ensures worlds[i].sys.cell.rt.Some? ==> worlds[i].sys.cell.rt.value.restarts == worlds[i].sys.cell.restarts
  {
    InvariantAt(svc, worlds, actions, i);
  }

  /** The waits of the restarts armed since the last reset total at most backoff * (2^max - 1) seconds. */
  lemma WaitsOfBudget(svc: Service, worlds: seq<World>, actions: seq<Action>, i: nat)
    requires Run(svc, worlds, actions) && i < |worlds|
    ensures Sum(worlds[i].past.arms) <= Backoff(svc) * ((Pow2(MaxRetries(svc)) - 1) as real) * 1000.0
  {
    InvariantAt(svc, worlds, actions, i);
    WaitsBounded(svc, worlds[i].sys, worlds[i].past);
    assert Total(svc, MaxRetries(svc)) == Backoff(svc) * ((Pow2(MaxRetries(svc)) - 1) as real) * 1000.0;
  }

  /** The n-th restart armed since the last reset (from 0) waits backoff * 2^n seconds. */
  lemma RestartDelay(svc: Service, worlds: seq<World>, actions: seq<Action>, i: nat)
    requires Run(svc, worlds, actions) && i < |actions| && Enabled(worlds[i].sys, actions[i])
    requires ArmedBy(svc, worlds[i].sys, actions[i]).Some?
    ensures worlds[i].sys.cell.restarts < MaxRetries(svc)
    ensures worlds[i + 1].sys.cell.restarts == worlds[i].sys.cell.restarts + 1
    ensures worlds[i + 1].sys.cell.timer == ArmedBy(svc, worlds[i].sys, actions[i])
    ensures worlds[i + 1].sys.cell.timer.value.delayMs ==
            Backoff(svc) * (Pow2(worlds[i].sys.cell.restarts) as real) * 1000.0
    ensures worlds[i + 1].sys.cell.timer.value.gen == worlds[i].sys.cell.gen
  {
    ArmSpendsOne(svc, worlds[i], actions[i], worlds[i + 1]);
  }

  lemma ArmSpendsOne(svc: Service, w: World, a: Action, w': World)
    requires Step(svc, w, a, w') && ArmedBy(svc, w.sys, a).Some?
    ensures var c, d := w.sys.cell, w'.sys.cell;
            && c.restarts < MaxRetries(svc) && d.restarts == c.restarts + 1
            && d.timer == ArmedBy(svc, w.sys, a)
            && d.timer.value.delayMs == Backoff(svc) * (Pow2(c.restarts) as real) * 1000.0
            && d.timer.value.gen == c.gen
  {
    var s := w.sys;
    if a.DeliverExit? {
      ExitSpendsOne(s.cell, if a.configured then Some(svc) else None, a.h.epoch, a.code);
    } else {
      ProbeSpendsOne(s.cell, svc, s.tasks[a.k].gen, a.health, a.inGrace);
    }
  }

  /** A Healthy result ends health-triggered restarts for its epoch; a wait_for_healthy service never gets one. */
  lemma HealthyEndsHealthRestarts(svc: Service, worlds: seq<World>, actions: seq<Action>, i: nat, j: nat)
    requires Run(svc, worlds, actions) && i < j < |actions|
    requires Enabled(worlds[i].sys, actions[i]) && Enabled(worlds[j].sys, actions[j]) && actions[j].ProbeDone?
    requires svc.waitForHealthy
      || (Applied(worlds[i].sys, actions[i]) && actions[i].health == HealthHealthy &&
        worlds[i].sys.cell.gen == worlds[j].sys.cell.gen)
    ensures ArmedBy(svc, worlds[j].sys, actions[j]) == None
  {
    assert Step(svc, worlds[i], actions[i], worlds[i + 1]);
    PastOnlyGrows(svc, worlds, actions, i + 1, j);
    InvariantAt(svc, worlds, actions, j);
    if ArmedBy(svc, worlds[j].sys, actions[j]).Some? {
      HealthArmNeedsUnproved(svc, worlds[j].sys, worlds[j].past, actions[j]);
    }
  }

  /**
   The count goes back to zero without a manual action only after `threshold`
   Healthy results, none Unhealthy between them, applied one after the other in
   one epoch: `past.results` is emptied whenever the epoch changes.
   */
  lemma ForgivenOnlyWhenStable(svc: Service, worlds: seq<World>, actions: seq<Action>, i: nat)
    requires Run(svc, worlds, actions) && i < |actions| && Enabled(worlds[i].sys, actions[i])
    requires worlds[i + 1].sys.cell.restarts < worlds[i].sys.cell.restarts && !ManualReset(actions[i])
    ensures actions[i].ProbeDone? && actions[i].health == HealthHealthy && Applied(worlds[i].sys, actions[i])
    ensures TrailingHealthy(worlds[i].past.results + [HealthHealthy]) >= ResetThreshold(svc)
  {
    InvariantAt(svc, worlds, actions, i);
    InvariantAt(svc, worlds, actions, i + 1);
    assert Step(svc, worlds[i], actions[i], worlds[i + 1]);
    assert Forgives(svc, worlds[i].sys, actions[i]);
    ForgivenessIsEarned(svc, worlds[i].sys, worlds[i].past, actions[i]);
  }
}
