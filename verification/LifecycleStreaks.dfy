/**
 The unhealthy streak over whole runs: what it counts, and when a restart comes before a whole
 streak of its own epoch.
 */
module LifecycleStreaks {
  import opened Basics
  import opened Policies
  import opened HealthRules
  import opened LifecycleProtocol
  import opened LifecycleSafety
  import opened LifecycleBudget
  import opened LifecycleRuns

  /** The results that count since the streak was last cleared, over all epochs. */
  function TrailingCounted(marks: seq<Mark>): nat {
    if marks == [] || marks[|marks| - 1].Cleared? then 0 else TrailingCounted(marks[..|marks| - 1]) + 1
  }

  /** Those of them that belong to epoch `g`, at the end. */
  function Own(marks: seq<Mark>, g: nat): nat {
    if marks == [] || marks[|marks| - 1] != Counted(g) then 0 else Own(marks[..|marks| - 1], g) + 1
  }

  lemma MarkStep(marks: seq<Mark>, mark: Mark, g: nat)
    ensures TrailingCounted(marks + [mark]) == if mark.Cleared? then 0 else TrailingCounted(marks) + 1
    ensures Own(marks + [mark], g) == if mark == Counted(g) then Own(marks, g) + 1 else 0
  {
    assert (marks + [mark])[..|marks|] == marks;
  }

  // One step.

  /** The streak is the same, and readiness, if the epoch is. */
  predicate StreakIsKept(c: Cell, d: Cell) {
    d.unhealthy == c.unhealthy && (d.gen == c.gen && c.ready ==> d.ready)
  }

  lemma StartsKeepStreak(svc: Service, s: System, a: Action)
    requires Enabled(s, a) && (a.EnterStart? || a.BeginSpawn? || a.Spawn? || a.StartThrows?)
    ensures StreakIsKept(s.cell, Next(svc, s, a).cell)
  {
  }

  lemma LaunchesKeepStreak(svc: Service, s: System, a: Action)
    requires Enabled(s, a) && (a.Resume? || a.HookDone? || a.WaitOver?)
    ensures StreakIsKept(s.cell, Next(svc, s, a).cell)
  {
  }

  lemma StopsKeepStreak(svc: Service, s: System, a: Action)
    requires Enabled(s, a) && StopSide(a)
    ensures StreakIsKept(s.cell, Next(svc, s, a).cell)
  {
  }

  lemma EventsKeepStreak(svc: Service, s: System, a: Action)
    requires Enabled(s, a) && !StartSide(a) && !StopSide(a) && !a.ProbeDone? && !a.ForgetName?
    ensures StreakIsKept(s.cell, Next(svc, s, a).cell)
  {
  }

  lemma OthersKeepStreak(svc: Service, s: System, a: Action)
    requires Enabled(s, a) && !a.ProbeDone? && !a.ForgetName?
    ensures StreakIsKept(s.cell, Next(svc, s, a).cell)
  {
    if StopSide(a) {
      StopsKeepStreak(svc, s, a);
    } else if !StartSide(a) {
      EventsKeepStreak(svc, s, a);
    } else if a.Resume? || a.HookDone? || a.WaitOver? {
      LaunchesKeepStreak(svc, s, a);
    } else {
      StartsKeepStreak(svc, s, a);
    }
  }

  /** What one probe continuation does to the unhealthy streak. */
  lemma ProbeAndStreak(c: Cell, svc: Service, g: nat, health: Health, inGrace: bool)
    ensures var d := c.OnProbe(svc, g, health, inGrace).0;
      && d.gen == c.gen && (c.ready ==> d.ready)
      && d.unhealthy ==
           (if !c.Applies(g, health, inGrace) then c.unhealthy
            else if health != HealthUnhealthy then 0
            else if !c.Counts(svc) then c.unhealthy
            else if c.EndsStreak(svc) then 0
            else c.unhealthy + 1)
      && (c.Applies(g, health, inGrace) && health == HealthUnhealthy ==> d.ready == c.ready)
  {
  }

  lemma ArmsAtEndOfStreak(c: Cell, svc: Service, g: nat, health: Health, inGrace: bool)
    requires c.OnProbe(svc, g, health, inGrace).1.Armed?
    ensures c.Applies(g, health, inGrace) && health == HealthUnhealthy && c.Counts(svc) && c.EndsStreak(svc)
  {
  }

  /** The streak after a step, and what is written down of it. */
  lemma StreakStep(svc: Service, w: World, a: Action, w': World)
    requires Step(svc, w, a, w')
    ensures w'.past.marks == w.past.marks + MarksOf(svc, w.sys, a)
    ensures w'.sys.cell.unhealthy ==
      if ClearsStreak(svc, w.sys, a) || a.ForgetName? then 0
      else if CountsUnhealthy(svc, w.sys, a) then w.sys.cell.unhealthy + 1
      else w.sys.cell.unhealthy
    ensures w'.sys.cell.gen == w.sys.cell.gen && w.sys.cell.ready ==> w'.sys.cell.ready
    ensures CountsUnhealthy(svc, w.sys, a) && w.sys.cell.ready ==> w'.sys.cell.ready
  {
    if a.ProbeDone? {
      ProbeAndStreak(w.sys.cell, svc, w.sys.tasks[a.k].gen, a.health, a.inGrace);
    } else if !a.ForgetName? {
      OthersKeepStreak(svc, w.sys, a);
    }
  }

  /** What a step adds to the marks. */
  lemma MarksStep(svc: Service, s: System, a: Action, marks: seq<Mark>, g: nat)
    requires Enabled(s, a) && g == s.cell.gen
    ensures var more := marks + MarksOf(svc, s, a);
      if ClearsStreak(svc, s, a) || a.ForgetName? then TrailingCounted(more) == 0 && Own(more, g) == 0
      else if CountsUnhealthy(svc, s, a) then TrailingCounted(more) == TrailingCounted(marks) + 1 &&
        Own(more, g) == Own(marks, g) + 1
      else more == marks
  {
    var counted := if CountsUnhealthy(svc, s, a) then marks + [Counted(g)] else marks;
    MarkStep(marks, Counted(g), g);
    MarkStep(counted, Cleared(g), g);
    var more := marks + MarksOf(svc, s, a);
    if ClearsStreak(svc, s, a) || a.ForgetName? {
      assert more == counted + [Cleared(g)];
    } else {
      assert more == counted;
    }
  }

  // Whole runs.

  ghost predicate MarksUpTo(marks: seq<Mark>, top: nat) {
    forall m :: 0 <= m < |marks| ==> marks[m].gen <= top
  }

  lemma MarksGrow(svc: Service, s: System, a: Action, marks: seq<Mark>)
    requires Enabled(s, a) && MarksUpTo(marks, s.cell.gen)
    ensures MarksUpTo(marks + MarksOf(svc, s, a), s.cell.gen)
  {
  }

  /** In every world the streak is the number of results that counted since it was last cleared. */
  lemma {:induction false} StreakIsTrailingRun(svc: Service, worlds: seq<World>, actions: seq<Action>, i: nat)
    requires Run(svc, worlds, actions) && i < |worlds|
    ensures worlds[i].sys.cell.unhealthy == TrailingCounted(worlds[i].past.marks)
    ensures MarksUpTo(worlds[i].past.marks, worlds[i].sys.cell.gen)
    ensures i > 0 ==> MarksUpTo(worlds[i].past.marks, worlds[i - 1].sys.cell.gen)
  {
    if i > 0 {
      var w, a := worlds[i - 1], actions[i - 1];
      StreakIsTrailingRun(svc, worlds, actions, i - 1);
      assert Step(svc, w, a, worlds[i]);
      StreakStep(svc, w, a, worlds[i]);
      MarksStep(svc, w.sys, a, w.past.marks, w.sys.cell.gen);
      MarksGrow(svc, w.sys, a, w.past.marks);
      GrowsAt(svc, worlds, actions, i - 1);
    }
  }

  /** The epoch of world `j` begins there. */
  ghost predicate Begins(worlds: seq<World>, j: nat)
    requires j < |worlds|
  {
    j == 0 || worlds[j - 1].sys.cell.gen < worlds[j].sys.cell.gen
  }

  ghost predicate ClearsAt(svc: Service, worlds: seq<World>, actions: seq<Action>, m: nat)
    requires m < |actions| && |worlds| == |actions| + 1
  {
    Enabled(worlds[m].sys, actions[m]) && ClearsStreak(svc, worlds[m].sys, actions[m])
  }

  /** No result from `j` to `i` cleared the streak. */
  ghost predicate NotCleared(svc: Service, worlds: seq<World>, actions: seq<Action>, j: nat, i: nat)
    requires j <= i < |worlds| && |worlds| == |actions| + 1
  {
    forall m :: j <= m < i ==> !ClearsAt(svc, worlds, actions, m)
  }

  lemma NoneOfNewEpoch(marks: seq<Mark>, g: nat)
    requires forall m :: 0 <= m < |marks| ==> marks[m].gen < g
    ensures Own(marks, g) == 0
  {
  }

  /** The streak in the middle of epoch `g`, which began with a streak of `start`. */
  ghost predicate InEpoch(svc: Service, w: World, g: nat, start: nat, kept: bool) {
    && w.sys.cell.gen == g
    && w.sys.cell.unhealthy == Own(w.past.marks, g) + (if kept then start else 0)
    && (!w.sys.cell.ready && Own(w.past.marks, g) > 0 ==> w.sys.cell.unhealthy < UnhealthyThreshold(svc))
  }

  lemma InEpochStep(svc: Service, w: World, a: Action, w': World, g: nat, start: nat, kept: bool)
    requires Step(svc, w, a, w') && InEpoch(svc, w, g, start, kept) && w'.sys.cell.gen == g && !a.ForgetName?
    ensures InEpoch(svc, w', g, start, kept && !ClearsStreak(svc, w.sys, a))
  {
    StreakStep(svc, w, a, w');
    MarksStep(svc, w.sys, a, w.past.marks, g);
  }

  lemma NotClearedStep(svc: Service, worlds: seq<World>, actions: seq<Action>, j: nat, i: nat)
    requires j <= i < |actions| && |worlds| == |actions| + 1
    ensures NotCleared(svc, worlds, actions, j, i + 1) <==>
            NotCleared(svc, worlds, actions, j, i) && !ClearsAt(svc, worlds, actions, i)
  {
  }

  lemma EpochGoesOn(svc: Service, worlds: seq<World>, actions: seq<Action>, j: nat, i: nat)
    requires Run(svc, worlds, actions) && j <= i < |actions| && worlds[i + 1].sys.cell.gen == worlds[j].sys.cell.gen
    ensures worlds[i].sys.cell.gen == worlds[j].sys.cell.gen && !actions[i].ForgetName?
    ensures Step(svc, worlds[i], actions[i], worlds[i + 1])
  {
    GenerationsGrow(svc, worlds, actions, j, i);
    GrowsAt(svc, worlds, actions, i);
  }

  lemma {:induction false} StreakInEpoch(svc: Service, worlds: seq<World>, actions: seq<Action>, j: nat, i: nat)
    requires Run(svc, worlds, actions) && j <= i < |worlds| && Begins(worlds, j)
    requires worlds[i].sys.cell.gen == worlds[j].sys.cell.gen
    ensures InEpoch(svc, worlds[i], worlds[j].sys.cell.gen, worlds[j].sys.cell.unhealthy,
                    NotCleared(svc, worlds, actions, j, i))
    decreases i
  {
    var g, start := worlds[j].sys.cell.gen, worlds[j].sys.cell.unhealthy;
    if i == j {
      StreakIsTrailingRun(svc, worlds, actions, j);
      NoneOfNewEpoch(worlds[j].past.marks, g);
    } else {
      var m: nat := i - 1;
      EpochGoesOn(svc, worlds, actions, j, m);
      StreakInEpoch(svc, worlds, actions, j, m);
      NotClearedStep(svc, worlds, actions, j, m);
      InEpochStep(svc, worlds[m], actions[m], worlds[m + 1], g, start, NotCleared(svc, worlds, actions, j, m));
    }
  }

  /** The result that arms a restart, found in an epoch that began with a streak of `start`. */
  lemma ArmInEpoch(svc: Service, w: World, a: Action, g: nat, start: nat, kept: bool)
    requires InEpoch(svc, w, g, start, kept) && Enabled(w.sys, a) && a.ProbeDone? && ArmedBy(svc, w.sys, a).Some?
    ensures CountsUnhealthy(svc, w.sys, a)
    ensures Own(w.past.marks, g) + 1 < UnhealthyThreshold(svc) <==> UnhealthyThreshold(svc) > 1 && start > 0 && kept
  {
    ArmsAtEndOfStreak(w.sys.cell, svc, w.sys.tasks[a.k].gen, a.health, a.inGrace);
  }

  /**
   A restart armed by an unhealthy probe comes before a whole streak of results that count in its
   own epoch, the last one included, exactly when the streak was positive when the epoch began and
   no result of the epoch has cleared it, and the threshold is not one.
   */
  lemma EarlyArmExactly(svc: Service, worlds: seq<World>, actions: seq<Action>, j: nat, i: nat)
    requires Run(svc, worlds, actions) && j <= i < |actions| && Begins(worlds, j)
    requires worlds[i].sys.cell.gen == worlds[j].sys.cell.gen
    requires actions[i].ProbeDone? && ArmsAt(svc, worlds, actions, i)
    ensures CountsUnhealthy(svc, worlds[i].sys, actions[i])
    ensures Own(worlds[i].past.marks, worlds[i].sys.cell.gen) + 1 < UnhealthyThreshold(svc)
       <==> UnhealthyThreshold(svc) > 1 && worlds[j].sys.cell.unhealthy > 0 && NotCleared(svc, worlds, actions, j, i)
  {
    StreakInEpoch(svc, worlds, actions, j, i);
    ArmInEpoch(svc, worlds[i], actions[i], worlds[i].sys.cell.gen, worlds[j].sys.cell.unhealthy,
               NotCleared(svc, worlds, actions, j, i));
  }

  // The same by the results that are applied, whether they count or not.

  ghost predicate AppliedAt(worlds: seq<World>, actions: seq<Action>, m: nat)
    requires m < |actions| && |worlds| == |actions| + 1
  {
    Enabled(worlds[m].sys, actions[m]) && Applied(worlds[m].sys, actions[m])
  }

  ghost function UnhealthyApplied(worlds: seq<World>, actions: seq<Action>, j: nat, i: nat): nat
    requires j <= i <= |actions| && |worlds| == |actions| + 1
    decreases i - j
  {
    if i == j then 0
    else
      UnhealthyApplied(worlds, actions, j, i - 1)
      + if AppliedAt(worlds, actions, i - 1) && actions[i - 1].health == HealthUnhealthy then 1 else 0
  }

  /** Only Unhealthy results were applied. */
  ghost predicate OnlyUnhealthy(worlds: seq<World>, actions: seq<Action>, j: nat, i: nat)
    requires j <= i < |worlds| && |worlds| == |actions| + 1
  {
    forall m :: j <= m < i && AppliedAt(worlds, actions, m) ==> actions[m].health == HealthUnhealthy
  }

  /** Every Unhealthy result that was applied counted, and none completed a streak. */
  ghost predicate AllCount(svc: Service, worlds: seq<World>, actions: seq<Action>, j: nat, i: nat)
    requires j <= i < |worlds| && |worlds| == |actions| + 1
  {
    forall m :: j <= m < i && AppliedAt(worlds, actions, m) && actions[m].health == HealthUnhealthy ==>
      CountsUnhealthy(svc, worlds[m].sys, actions[m]) && !ClearsAt(svc, worlds, actions, m)
  }

  lemma OwnAndApplied(svc: Service, w: World, a: Action, w': World, g: nat)
    requires Step(svc, w, a, w') && w.sys.cell.gen == g && !a.ForgetName?
    ensures Own(w'.past.marks, g) <=
            Own(w.past.marks, g) + if Applied(w.sys, a) && a.health == HealthUnhealthy then 1 else 0
    ensures !ClearsStreak(svc, w.sys, a) ==>
      Own(w'.past.marks, g) == Own(w.past.marks, g) + if CountsUnhealthy(svc, w.sys, a) then 1 else 0
  {
    StreakStep(svc, w, a, w');
    MarksStep(svc, w.sys, a, w.past.marks, g);
  }

  lemma OneMoreApplied(svc: Service, worlds: seq<World>, actions: seq<Action>, j: nat, m: nat)
    requires j <= m < |actions| && |worlds| == |actions| + 1 && Enabled(worlds[m].sys, actions[m])
    ensures UnhealthyApplied(worlds, actions, j, m + 1) == UnhealthyApplied(worlds, actions, j, m)
      + if Applied(worlds[m].sys, actions[m]) && actions[m].health == HealthUnhealthy then 1 else 0
    ensures NotCleared(svc, worlds, actions, j, m + 1) && AllCount(svc, worlds, actions, j, m + 1) ==>
      && NotCleared(svc, worlds, actions, j, m) && AllCount(svc, worlds, actions, j, m)
      && !ClearsStreak(svc, worlds[m].sys, actions[m])
      && (Applied(worlds[m].sys, actions[m]) && actions[m].health == HealthUnhealthy <==>
        CountsUnhealthy(svc, worlds[m].sys, actions[m]))
  {
    NotClearedStep(svc, worlds, actions, j, m);
    assert AppliedAt(worlds, actions, m) == Applied(worlds[m].sys, actions[m]);
  }

  lemma {:induction false} OwnAreApplied(svc: Service, worlds: seq<World>, actions: seq<Action>, j: nat, i: nat)
    requires Run(svc, worlds, actions) && j <= i < |worlds| && Begins(worlds, j)
    requires worlds[i].sys.cell.gen == worlds[j].sys.cell.gen
    ensures Own(worlds[i].past.marks, worlds[j].sys.cell.gen) <= UnhealthyApplied(worlds, actions, j, i)
    ensures NotCleared(svc, worlds, actions, j, i) && AllCount(svc, worlds, actions, j, i) ==>
      Own(worlds[i].past.marks, worlds[j].sys.cell.gen) == UnhealthyApplied(worlds, actions, j, i)
    decreases i
  {
    if i == j {
      StreakIsTrailingRun(svc, worlds, actions, j);
      NoneOfNewEpoch(worlds[j].past.marks, worlds[j].sys.cell.gen);
    } else {
      var m: nat := i - 1;
      EpochGoesOn(svc, worlds, actions, j, m);
      OwnAreApplied(svc, worlds, actions, j, m);
      OneMoreApplied(svc, worlds, actions, j, m);
      OwnAndApplied(svc, worlds[m], actions[m], worlds[m + 1], worlds[j].sys.cell.gen);
    }
  }

  lemma ClearedByOthers(svc: Service, worlds: seq<World>, actions: seq<Action>, j: nat, i: nat)
    requires j <= i < |worlds| && |worlds| == |actions| + 1
    ensures NotCleared(svc, worlds, actions, j, i) ==> OnlyUnhealthy(worlds, actions, j, i)
    ensures OnlyUnhealthy(worlds, actions, j, i) && AllCount(svc, worlds, actions, j, i) ==>
            NotCleared(svc, worlds, actions, j, i)
  {
    if NotCleared(svc, worlds, actions, j, i) {
      forall m | j <= m < i && AppliedAt(worlds, actions, m)
        ensures actions[m].health == HealthUnhealthy
      {
        assert !ClearsAt(svc, worlds, actions, m);
      }
    }
    if OnlyUnhealthy(worlds, actions, j, i) && AllCount(svc, worlds, actions, j, i) {
      forall m | j <= m < i
        ensures !ClearsAt(svc, worlds, actions, m)
      {
        if ClearsAt(svc, worlds, actions, m) {
          assert AppliedAt(worlds, actions, m);
        }
      }
    }
  }

  /**
   Fewer Unhealthy results applied in the epoch than the threshold, the last one included, mean that
   the streak was positive when the epoch began and no other result of the epoch was applied since;
   and the other way round, if each of them counted and none completed a streak before.
   */
  lemma EarlyArmByApplied(svc: Service, worlds: seq<World>, actions: seq<Action>, j: nat, i: nat)
    requires Run(svc, worlds, actions) && j <= i < |actions| && Begins(worlds, j)
    requires worlds[i].sys.cell.gen == worlds[j].sys.cell.gen
    requires actions[i].ProbeDone? && ArmsAt(svc, worlds, actions, i)
    ensures UnhealthyApplied(worlds, actions, j, i) + 1 < UnhealthyThreshold(svc) ==>
      worlds[j].sys.cell.unhealthy > 0 && OnlyUnhealthy(worlds, actions, j, i)
    ensures AllCount(svc, worlds, actions, j, i) && UnhealthyThreshold(svc) > 1 ==>
      (UnhealthyApplied(worlds, actions, j, i) + 1 < UnhealthyThreshold(svc)
       <==> worlds[j].sys.cell.unhealthy > 0 && OnlyUnhealthy(worlds, actions, j, i))
  {
    EarlyArmExactly(svc, worlds, actions, j, i);
    OwnAreApplied(svc, worlds, actions, j, i);
    ClearedByOthers(svc, worlds, actions, j, i);
  }
}
