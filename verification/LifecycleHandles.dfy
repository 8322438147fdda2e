/** Which process a stale start stops: the one it spawned, or one of a later start that it was handed. */
module LifecycleHandles {
  import opened Basics
  import opened Policies
  import opened HealthRules
  import opened LifecycleProtocol
  import opened LifecycleSafety
  import opened LifecycleRuns

  predicate BeforeSpawn(t: Task) {
    t.Preparing? || t.Spawning?
  }

  /** No process has the epoch of a start that has not spawned yet. */
  ghost predicate Fresh(s: System) {
    forall k, h :: k in s.tasks && BeforeSpawn(s.tasks[k]) && (h in s.live || h in s.dead) ==> h.epoch != s.tasks[k].gen
  }

  /** `t` has no start before its spawn and no process that `s` has not. */
  ghost predicate NoneNew(s: System, t: System) {
    && t.live + t.dead <= s.live + s.dead
    && forall k :: k in t.tasks && BeforeSpawn(t.tasks[k]) ==>
         k in s.tasks && BeforeSpawn(s.tasks[k]) && s.tasks[k].gen == t.tasks[k].gen
  }

  lemma FreshByNoneNew(s: System, t: System)
    requires Fresh(s) && NoneNew(s, t)
    ensures Fresh(t)
  {
    forall k, h | k in t.tasks && BeforeSpawn(t.tasks[k]) && (h in t.live || h in t.dead)
      ensures h.epoch != t.tasks[k].gen
    {
      assert h in s.live + s.dead;
    }
  }

  lemma StartIsFresh(s: System, hooks: bool)
    requires Good(s) && Fresh(s)
    ensures Fresh(s.Start(hooks))
  {
  }

  lemma SpawnIsFresh(svc: Service, s: System, a: Action)
    requires Good(s) && Fresh(s) && Enabled(s, a) && a.Spawn?
    ensures Fresh(Next(svc, s, a))
  {
    assert IsStart(s.tasks[a.k]);
  }

  lemma LaunchesMakeNone(svc: Service, s: System, a: Action)
    requires Good(s) && Enabled(s, a)
    requires a.BeginSpawn? || a.StartThrows? || a.Resume? || a.HookDone? || a.WaitOver?
    ensures NoneNew(s, Next(svc, s, a))
  {
  }

  lemma StopsMakeNone(svc: Service, s: System, a: Action)
    requires Good(s) && Enabled(s, a) && StopSide(a)
    ensures NoneNew(s, Next(svc, s, a))
  {
  }

  lemma EventsMakeNone(svc: Service, s: System, a: Action)
    requires Good(s) && Enabled(s, a) && !StartSide(a) && !StopSide(a) && !a.TimerFires?
    ensures NoneNew(s, Next(svc, s, a))
  {
  }

  lemma TimerIsFresh(svc: Service, s: System, a: Action)
    requires Good(s) && Fresh(s) && Enabled(s, a) && a.TimerFires?
    ensures Fresh(Next(svc, s, a))
  {
    var t := s.(cell := s.cell.(timer := None));
    CellGood(s, t.cell);
    StartIsFresh(t, false);
    assert NoneNew(t, t.StopPlan(false));
    FreshByNoneNew(t, t.StopPlan(false));
  }

  lemma FreshKept(svc: Service, s: System, a: Action)
    requires Good(s) && Fresh(s) && Enabled(s, a)
    ensures Fresh(Next(svc, s, a))
  {
    if a.EnterStart? {
      StartIsFresh(s, a.hooks);
    } else if a.Spawn? {
      SpawnIsFresh(svc, s, a);
    } else if a.TimerFires? {
      TimerIsFresh(svc, s, a);
    } else {
      if StartSide(a) {
        LaunchesMakeNone(svc, s, a);
      } else if StopSide(a) {
        StopsMakeNone(svc, s, a);
      } else {
        EventsMakeNone(svc, s, a);
      }
      FreshByNoneNew(s, Next(svc, s, a));
    }
  }

  lemma {:induction false} FreshAt(svc: Service, worlds: seq<World>, actions: seq<Action>, i: nat)
    requires Run(svc, worlds, actions) && i < |worlds|
    ensures Fresh(worlds[i].sys)
  {
    if i > 0 {
      FreshAt(svc, worlds, actions, i - 1);
      InvariantAt(svc, worlds, actions, i - 1);
      assert Step(svc, worlds[i - 1], actions[i - 1], worlds[i]);
      FreshKept(svc, worlds[i - 1].sys, actions[i - 1]);
    }
  }

  /** The runtime hands the start at `k`, of epoch `g`, the live process on record instead of spawning one. */
  ghost predicate HandsOver(s: System, a: Action, k: nat, g: nat, h: Handle) {
    && (a == BeginSpawn(k) || a == Spawn(k)) && Enabled(s, a)
    && s.tasks[k].gen == g && s.Running() && s.record == Some(h)
  }

  /** The start at `k` spawns `h`. */
  ghost predicate Spawns(s: System, a: Action, k: nat, g: nat, h: Handle) {
    a == Spawn(k) && Enabled(s, a) && s.tasks[k].gen == g && !s.Running() && h == Handle(s.spawned, g)
  }

  predicate GotHandle(s: System, k: nat, g: nat, h: Handle) {
    k in s.tasks && s.tasks[k].Spawned? && s.tasks[k].gen == g && s.tasks[k].h == h
  }

  lemma HandleComesFrom(svc: Service, s: System, a: Action, k: nat, g: nat, h: Handle)
    requires Good(s) && Enabled(s, a) && GotHandle(Next(svc, s, a), k, g, h) && !GotHandle(s, k, g, h)
    ensures HandsOver(s, a, k, g, h) || Spawns(s, a, k, g, h)
  {
  }

  lemma {:induction false} HandleWhen(svc: Service, worlds: seq<World>, actions: seq<Action>, i: nat, k: nat, g: nat,
                                      h: Handle)
    returns (j: nat)
    requires Run(svc, worlds, actions) && i < |worlds| && GotHandle(worlds[i].sys, k, g, h)
    ensures j < i && (HandsOver(worlds[j].sys, actions[j], k, g, h) || Spawns(worlds[j].sys, actions[j], k, g, h))
  {
    assert i > 0;
    assert Step(svc, worlds[i - 1], actions[i - 1], worlds[i]);
    if GotHandle(worlds[i - 1].sys, k, g, h) {
      j := HandleWhen(svc, worlds, actions, i - 1, k, g, h);
    } else {
      InvariantAt(svc, worlds, actions, i - 1);
      HandleComesFrom(svc, worlds[i - 1].sys, actions[i - 1], k, g, h);
      j := i - 1;
    }
  }

  /**
   A start that resumes in a later epoch and stops the process it holds stops one of another epoch
   than its own exactly when it was handed that process and had not spawned it.
   */
  lemma CleanupStopsOtherExactly(svc: Service, worlds: seq<World>, actions: seq<Action>, i: nat, k: nat, g: nat,
                                 h: Handle)
    requires Run(svc, worlds, actions) && i < |actions| && actions[i] == Resume(k) && GotHandle(worlds[i].sys, k, g, h)
    requires k in worlds[i + 1].sys.tasks && worlds[i + 1].sys.tasks[k] == CleanupStop(Some(h))
    ensures h.epoch != g <==> exists j :: 0 <= j < i && HandsOver(worlds[j].sys, actions[j], k, g, h)
  {
    var m := HandleWhen(svc, worlds, actions, i, k, g, h);
    if j :| 0 <= j < i && HandsOver(worlds[j].sys, actions[j], k, g, h) {
      FreshAt(svc, worlds, actions, j);
      InvariantAt(svc, worlds, actions, j);
      assert h in worlds[j].sys.live;
    }
  }
}
