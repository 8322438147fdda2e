/** start(): launching a plan wave by wave, with health waits between waves. */
module StartWaves {
  import opened Basics

  datatype Dependency = Dependency(service: string, healthy: bool)  // healthy: condition service_healthy

  datatype PlanStep = PlanStep(name: string, dependencies: seq<Dependency>)

  datatype Plan = Plan(steps: seq<PlanStep>, waves: seq<seq<string>>)

  /** What one turn of waitHealthy's poll loop sees. */
  datatype Poll = Poll(now: int, healthy: bool, failed: bool)

  /**
   Everything start() meets outside itself: which names have a blocker, which are
   already up, how each startOne settles, what each health wait polls until when.
   */
  datatype World = World(
    blocked: set<string>,
    claimed: set<string>,
    checked: set<string>,      // configured with a health check
    starts: set<string>,       // startOne resolves
    polls: string -> seq<Poll>,
    deadline: string -> int)

  datatype Event =
    | Launch(wave: nat, name: string, ok: bool)
    | Observed(wave: nat, name: string)
    | TimedOut(wave: nat, name: string)

  predicate IsFailure(e: Event) {
    e.TimedOut? || (e.Launch? && !e.ok)
  }

  ghost predicate NeedsHealthy(plan: Plan, name: string, dep: string) {
    exists step :: step in plan.steps && step.name == name && Dependency(dep, true) in step.dependencies
  }

  /** What the planner guarantees: a name is in one wave, and what it depends on is in an earlier one. */
  ghost predicate Ordered(plan: Plan) {
    && (forall i, j, name ::
          0 <= i < |plan.waves| && 0 <= j < |plan.waves| && name in plan.waves[i] && name in plan.waves[j] ==> i == j)
    && (forall i, name, dep :: 0 <= i < |plan.waves| && name in plan.waves[i] && NeedsHealthy(plan, name, dep)
          ==> exists j :: 0 <= j < i && dep in plan.waves[j])
  }

  /** The poll at which waitHealthy returns: healthy, with nothing decisive before it. */
  ghost predicate TurnsHealthy(polls: seq<Poll>, deadline: int, i: nat) {
    && i < |polls| && polls[i].healthy
    && forall j :: 0 <= j <= i ==> polls[j].now < deadline && (j < i ==> !polls[j].healthy && !polls[j].failed)
  }

  /** The wait for this name succeeds. */
  ghost predicate EverHealthy(world: World, name: string) {
    exists i: nat :: TurnsHealthy(world.polls(name), world.deadline(name), i)
  }

  method WaitHealthy(polls: seq<Poll>, deadline: int) returns (ok: bool)
    ensures ok <==> exists i: nat :: TurnsHealthy(polls, deadline, i)
  {
    var i := 0;
    while i < |polls| && polls[i].now < deadline
      invariant i <= |polls|
      invariant forall j :: 0 <= j < i ==> polls[j].now < deadline && !polls[j].healthy && !polls[j].failed
    {
      if polls[i].healthy {
        assert TurnsHealthy(polls, deadline, i);
        return true;
      }
      if polls[i].failed {
        assert forall k: nat :: TurnsHealthy(polls, deadline, k) ==> k <= i;
        return false;
      }
      i := i + 1;
    }
    assert forall k: nat :: TurnsHealthy(polls, deadline, k) ==> k < i;
    return false;
  }

  predicate WantedBy(step: PlanStep, remaining: seq<string>, name: string) {
    step.name in remaining && Dependency(name, true) in step.dependencies
  }

  predicate Wanted(steps: seq<PlanStep>, remaining: seq<string>, name: string) {
    exists t :: 0 <= t < |steps| && WantedBy(steps[t], remaining, name)
  }

  lemma WantedMeansNeeded(plan: Plan, remaining: seq<string>, name: string)
    ensures Wanted(plan.steps, remaining, name) <==>
            exists later :: later in remaining && NeedsHealthy(plan, later, name)
  {
    if later :| later in remaining && NeedsHealthy(plan, later, name) {
      var step :| step in plan.steps && step.name == later && Dependency(name, true) in step.dependencies;
      var t :| 0 <= t < |plan.steps| && plan.steps[t] == step;
      assert WantedBy(plan.steps[t], remaining, name);
    }
    if Wanted(plan.steps, remaining, name) {
      var t :| 0 <= t < |plan.steps| && WantedBy(plan.steps[t], remaining, name);
      assert plan.steps[t] in plan.steps && NeedsHealthy(plan, plan.steps[t].name, name);
    }
  }

  lemma WantedStep(steps: seq<PlanStep>, s: nat, remaining: seq<string>, name: string)
    requires s < |steps|
    ensures Wanted(steps[..s + 1], remaining, name) <==>
            Wanted(steps[..s], remaining, name) || WantedBy(steps[s], remaining, name)
  {
    if Wanted(steps[..s], remaining, name) {
      var t :| 0 <= t < s && WantedBy(steps[..s][t], remaining, name);
      assert steps[..s + 1][t] == steps[..s][t];
    }
    assert steps[..s + 1][s] == steps[s];
  }

  /** The names of `wave` that something in `remaining` wants healthy, each once. */
  method NamesNeedingHealthWait(wave: seq<string>, remaining: seq<string>, plan: Plan) returns (needed: seq<string>)
    ensures forall name :: name in needed <==> name in wave && Wanted(plan.steps, remaining, name)
    ensures forall i, j :: 0 <= i < j < |needed| ==> needed[i] != needed[j]
  {
    needed := [];
    for s := 0 to |plan.steps|
      invariant forall i, j :: 0 <= i < j < |needed| ==> needed[i] != needed[j]
      invariant forall name :: name in needed <==> name in wave && Wanted(plan.steps[..s], remaining, name)
    {
      var step := plan.steps[s];
      ghost var before := needed;
      if step.name in remaining {
        for d := 0 to |step.dependencies|
          invariant forall i, j :: 0 <= i < j < |needed| ==> needed[i] != needed[j]
          invariant forall name :: name in needed <==>
            name in before || (name in wave && Dependency(name, true) in step.dependencies[..d])
        {
          var dep := step.dependencies[d];
          assert step.dependencies[..d + 1] == step.dependencies[..d] + [dep];
          if dep.healthy && dep.service in wave && dep.service !in needed {
            needed := needed + [dep.service];
          }
        }
        assert step.dependencies[..|step.dependencies|] == step.dependencies;
      }
      forall name
        ensures name in needed <==> name in wave && Wanted(plan.steps[..s + 1], remaining, name)
      {
        WantedStep(plan.steps, s, remaining, name);
      }
    }
    assert plan.steps[..|plan.steps|] == plan.steps;
  }

  // What a trace of start() satisfies.

  ghost predicate SeenHealthy(trace: seq<Event>, before: int, name: string) {
    exists q :: 0 <= q < before && q < |trace| && trace[q].Observed? && trace[q].name == name
  }

  /** Launches end as startOne settles, and waits as the polls say. */
  ghost predicate Truthful(world: World, trace: seq<Event>) {
    forall p :: 0 <= p < |trace| ==> Tells(world, trace[p])
  }

  ghost predicate Tells(world: World, e: Event) {
    match e
    case Launch(_, name, ok) => ok == (name in world.starts)
    case Observed(_, name) => exists i: nat :: TurnsHealthy(world.polls(name), world.deadline(name), i)
    case TimedOut(_, name) => forall i: nat :: !TurnsHealthy(world.polls(name), world.deadline(name), i)
  }

  lemma TruthfulStep(world: World, trace: seq<Event>, e: Event)
    requires Truthful(world, trace) && Tells(world, e)
    ensures Truthful(world, trace + [e])
  {
    assert forall p :: 0 <= p < |trace| ==> (trace + [e])[p] == trace[p];
  }

  // When it succeeds, said of the world alone.

  /** startOne resolves for every name of the wave that is neither blocked nor already up. */
  ghost predicate LaunchesFine(world: World, names: seq<string>) {
    forall name :: name in names && name !in world.blocked && name !in world.claimed ==> name in world.starts
  }

  ghost predicate WantedLater(plan: Plan, wave: nat, name: string) {
    exists j, later :: wave < j < |plan.waves| && later in plan.waves[j] && NeedsHealthy(plan, later, name)
  }

  /** Every unblocked, checked name of the wave that a later wave wants healthy turns healthy in time. */
  ghost predicate WaitsFine(plan: Plan, world: World, wave: nat)
    requires wave < |plan.waves|
  {
    forall name :: (name in plan.waves[wave] && name !in world.blocked && name in world.checked
                    && WantedLater(plan, wave, name)) ==> EverHealthy(world, name)
  }

  ghost predicate WaveFine(plan: Plan, world: World, wave: nat)
    requires wave < |plan.waves|
  {
    LaunchesFine(world, plan.waves[wave]) && WaitsFine(plan, world, wave)
  }

  /** Every launch comes after each of its unblocked, checked service_healthy dependencies was seen healthy. */
  ghost predicate Gated(plan: Plan, world: World, trace: seq<Event>) {
    forall p, dep :: (0 <= p < |trace| && trace[p].Launch? && NeedsHealthy(plan, trace[p].name, dep)
                      && dep !in world.blocked && dep in world.checked) ==> SeenHealthy(trace, p, dep)
  }

  /** After a failure in a wave nothing of a later wave is launched. */
  ghost predicate StopsAtFailure(trace: seq<Event>) {
    forall p, r :: 0 <= p < r < |trace| && IsFailure(trace[p]) && trace[r].Launch? ==> trace[r].wave <= trace[p].wave
  }

  function Launched(trace: seq<Event>): seq<string> {
    if trace == [] then []
    else
      var last := trace[|trace| - 1];
      Launched(trace[..|trace| - 1]) + (if last.Launch? then [last.name] else [])
  }

  function Pending(world: World, names: seq<string>): seq<string> {
    if names == [] then []
    else
      var last := names[|names| - 1];
      Pending(world, names[..|names| - 1]) + (if last in world.blocked || last in world.claimed then [] else [last])
  }

  function Flat(waves: seq<seq<string>>): seq<string> {
    if waves == [] then [] else Flat(waves[..|waves| - 1]) + waves[|waves| - 1]
  }

  lemma PendingAppend(world: World, names: seq<string>, more: seq<string>)
    ensures Pending(world, names + more) == Pending(world, names) + Pending(world, more)
  {
    if more == [] {
      assert names + more == names;
    } else {
      var m := |more| - 1;
      PendingAppend(world, names, more[..m]);
      assert (names + more)[..|names + more| - 1] == names + more[..m];
    }
  }

  lemma {:induction false} FlatHas(waves: seq<seq<string>>, name: string)
    ensures name in Flat(waves) <==> exists j :: 0 <= j < |waves| && name in waves[j]
  {
    if waves != [] {
      var n := |waves| - 1;
      FlatHas(waves[..n], name);
      assert forall j :: 0 <= j < n ==> waves[..n][j] == waves[j];
      assert name in Flat(waves) <==> name in Flat(waves[..n]) || name in waves[n];
    }
  }

  lemma SeenGrows(trace: seq<Event>, e: Event, before: int, name: string)
    requires SeenHealthy(trace, before, name) && before <= |trace|
    ensures SeenHealthy(trace + [e], before, name)
  {
    var q :| 0 <= q < before && q < |trace| && trace[q].Observed? && trace[q].name == name;
    assert (trace + [e])[q] == trace[q];
  }

  ghost predicate GatedFor(plan: Plan, world: World, trace: seq<Event>, name: string) {
    forall dep :: NeedsHealthy(plan, name, dep) && dep !in world.blocked && dep in world.checked ==>
      SeenHealthy(trace, |trace|, dep)
  }

  lemma GatedStep(plan: Plan, world: World, trace: seq<Event>, e: Event)
    requires Gated(plan, world, trace) && (e.Launch? ==> GatedFor(plan, world, trace, e.name))
    ensures Gated(plan, world, trace + [e])
    ensures forall name :: GatedFor(plan, world, trace, name) ==> GatedFor(plan, world, trace + [e], name)
  {
    var longer := trace + [e];
    forall dep, before | before <= |trace| && SeenHealthy(trace, before, dep)
      ensures SeenHealthy(longer, before, dep) && SeenHealthy(longer, |longer|, dep)
    {
      SeenGrows(trace, e, before, dep);
    }
    forall p, dep | 0 <= p < |longer| && longer[p].Launch? && NeedsHealthy(plan, longer[p].name, dep)
      && dep !in world.blocked && dep in world.checked
      ensures SeenHealthy(longer, p, dep)
    {
      if p < |trace| {
        assert longer[p] == trace[p];
        assert SeenHealthy(trace, p, dep);
      } else {
        assert SeenHealthy(trace, |trace|, dep);
      }
    }
  }

  predicate AllFine(trace: seq<Event>) {
    forall p :: 0 <= p < |trace| ==> !IsFailure(trace[p])
  }

  /** Everything from position `from` on belongs to `wave`. */
  predicate InWave(trace: seq<Event>, from: nat, wave: nat) {
    forall p :: from <= p < |trace| ==> trace[p].wave == wave
  }

  method LaunchWave(plan: Plan, world: World, wave: nat, before: seq<Event>) returns (trace: seq<Event>, ok: bool)
    requires wave < |plan.waves| && Gated(plan, world, before) && AllFine(before) && Truthful(world, before)
    requires forall name :: name in plan.waves[wave] ==> GatedFor(plan, world, before, name)
    ensures before <= trace && Gated(plan, world, trace) && InWave(trace, |before|, wave)
    ensures Truthful(world, trace)
    ensures ok <==> AllFine(trace)
    ensures ok <==> LaunchesFine(world, plan.waves[wave])
    ensures Launched(trace) == Launched(before) + Pending(world, plan.waves[wave])
    ensures forall name :: GatedFor(plan, world, before, name) ==> GatedFor(plan, world, trace, name)
  {
    trace, ok := before, true;
    var names := plan.waves[wave];
    for i := 0 to |names|
      invariant before <= trace && Gated(plan, world, trace) && InWave(trace, |before|, wave)
      invariant Truthful(world, trace)
      invariant ok <==> AllFine(trace)
      invariant ok <==> LaunchesFine(world, names[..i])
      invariant Launched(trace) == Launched(before) + Pending(world, names[..i])
      invariant forall name :: GatedFor(plan, world, before, name) ==> GatedFor(plan, world, trace, name)
    {
      var name := names[i];
      assert names[..i + 1][..i] == names[..i];
      LaunchesFineStep(world, names[..i], name);
      assert names[..i + 1] == names[..i] + [name];
      if name !in world.blocked && name !in world.claimed {
        var e := Launch(wave, name, name in world.starts);
        GatedStep(plan, world, trace, e);
        FineStep(trace, e);
        TruthfulStep(world, trace, e);
        assert (trace + [e])[..|trace|] == trace;
        trace, ok := trace + [e], ok && e.ok;
      }
    }
    assert names[..|names|] == names;
  }

  lemma LaunchesFineStep(world: World, names: seq<string>, name: string)
    ensures LaunchesFine(world, names + [name]) <==>
            LaunchesFine(world, names) && (name !in world.blocked && name !in world.claimed ==> name in world.starts)
  {
    assert forall n :: n in names + [name] <==> n in names || n == name;
  }

  lemma FineStep(trace: seq<Event>, e: Event)
    ensures AllFine(trace + [e]) <==> AllFine(trace) && !IsFailure(e)
  {
    assert forall p :: 0 <= p < |trace| ==> (trace + [e])[p] == trace[p];
    assert (trace + [e])[|trace|] == e;
  }

  ghost predicate Awaited(plan: Plan, world: World, wave: nat, remaining: seq<string>, name: string)
    requires wave < |plan.waves|
  {
    && name in plan.waves[wave] && name !in world.blocked && name in world.checked
    && exists later :: later in remaining && NeedsHealthy(plan, later, name)
  }

  lemma AwaitedIsWanted(plan: Plan, world: World, wave: nat, remaining: seq<string>)
    requires wave < |plan.waves|
    ensures forall name :: Awaited(plan, world, wave, remaining, name) <==>
      name in plan.waves[wave] && name !in world.blocked && name in world.checked && Wanted(plan.steps, remaining, name)
  {
    forall name
      ensures Awaited(plan, world, wave, remaining, name) <==>
        name in plan.waves[wave] && name !in world.blocked && name in world.checked &&
          Wanted(plan.steps, remaining, name)
    {
      WantedMeansNeeded(plan, remaining, name);
    }
  }

  /** What is awaited for all later waves together is what some later wave wants. */
  lemma AwaitedForLater(plan: Plan, world: World, wave: nat)
    requires wave < |plan.waves|
    ensures WaitsFine(plan, world, wave) <==>
      forall name :: Awaited(plan, world, wave, Flat(plan.waves[wave + 1..]), name) ==> EverHealthy(world, name)
  {
    var later := plan.waves[wave + 1..];
    forall name
      ensures (exists l :: l in Flat(later) && NeedsHealthy(plan, l, name)) <==> WantedLater(plan, wave, name)
    {
      if l :| l in Flat(later) && NeedsHealthy(plan, l, name) {
        FlatHas(later, l);
        var j :| 0 <= j < |later| && l in later[j];
        assert plan.waves[wave + 1 + j] == later[j];
      }
      if j, l :| wave < j < |plan.waves| && l in plan.waves[j] && NeedsHealthy(plan, l, name) {
        FlatHas(later, l);
        assert later[j - (wave + 1)] == plan.waves[j];
      }
    }
  }

  /** Every unblocked, checked name of the wave that `remaining` wants healthy was seen healthy. */
  ghost predicate AllSeen(plan: Plan, world: World, wave: nat, remaining: seq<string>, trace: seq<Event>)
    requires wave < |plan.waves|
  {
    forall name :: (name in plan.waves[wave] && name !in world.blocked && name in world.checked
                    && Wanted(plan.steps, remaining, name)) ==> SeenHealthy(trace, |trace|, name)
  }

  function Unblocked(world: World, names: seq<string>): (kept: seq<string>)
    ensures forall name :: name in kept <==> name in names && name !in world.blocked
  {
    if names == [] then []
    else (if names[0] in world.blocked then [] else [names[0]]) + Unblocked(world, names[1..])
  }

  method AwaitWaveHealth(plan: Plan, world: World, wave: nat, remaining: seq<string>, before: seq<Event>)
    returns (trace: seq<Event>, ok: bool)
    requires wave < |plan.waves| && Gated(plan, world, before) && AllFine(before) && Truthful(world, before)
    ensures before <= trace && Gated(plan, world, trace) && InWave(trace, |before|, wave)
    ensures Truthful(world, trace)
    ensures ok <==> AllFine(trace)
    ensures ok <==> forall name :: Awaited(plan, world, wave, remaining, name) ==> EverHealthy(world, name)
    ensures Launched(trace) == Launched(before)
    ensures forall name :: GatedFor(plan, world, before, name) ==> GatedFor(plan, world, trace, name)
    ensures ok ==> AllSeen(plan, world, wave, remaining, trace)
  {
    trace, ok := before, true;
    AwaitedIsWanted(plan, world, wave, remaining);
    var members := Unblocked(world, plan.waves[wave]);
    var names := NamesNeedingHealthWait(members, remaining, plan);
    for i := 0 to |names|
      invariant before <= trace && Gated(plan, world, trace) && InWave(trace, |before|, wave)
      invariant Truthful(world, trace)
      invariant ok && AllFine(trace)
      invariant forall name :: name in names[..i] && name in world.checked ==> EverHealthy(world, name)
      invariant Launched(trace) == Launched(before)
      invariant forall name :: GatedFor(plan, world, before, name) ==> GatedFor(plan, world, trace, name)
      invariant forall name :: name in names[..i] && name in world.checked ==> SeenHealthy(trace, |trace|, name)
    {
      var name := names[i];
      assert names[..i + 1] == names[..i] + [name];
      if name in world.checked {
        var healthy := WaitHealthy(world.polls(name), world.deadline(name));
        var e := if healthy then Observed(wave, name) else TimedOut(wave, name);
        GatedStep(plan, world, trace, e);
        FineStep(trace, e);
        TruthfulStep(world, trace, e);
        assert (trace + [e])[..|trace|] == trace;
        trace, ok := trace + [e], healthy;
        if !ok {
          assert Awaited(plan, world, wave, remaining, name) && !EverHealthy(world, name);
          return;
        }
      }
    }
    assert names[..|names|] == names;
  }

  /** What later waves need from the waves before `wave` has been seen. */
  ghost predicate SeenBefore(plan: Plan, world: World, wave: nat, trace: seq<Event>) {
    forall j, m, name, dep :: (wave <= j < |plan.waves| && 0 <= m < wave && name in plan.waves[j] &&
      dep in plan.waves[m]
                              && NeedsHealthy(plan, name, dep) && dep !in world.blocked && dep in world.checked)
      ==> SeenHealthy(trace, |trace|, dep)
  }

  lemma WaveIsGated(plan: Plan, world: World, wave: nat, trace: seq<Event>)
    requires Ordered(plan) && wave < |plan.waves| && SeenBefore(plan, world, wave, trace)
    ensures forall name :: name in plan.waves[wave] ==> GatedFor(plan, world, trace, name)
  {
  }

  lemma NextSeenBefore(plan: Plan, world: World, wave: nat, before: seq<Event>, trace: seq<Event>)
    requires Ordered(plan) && wave < |plan.waves| && before <= trace && SeenBefore(plan, world, wave, before)
    requires wave < |plan.waves| - 1 ==> AllSeen(plan, world, wave, Flat(plan.waves[wave + 1..]), trace)
    ensures SeenBefore(plan, world, wave + 1, trace)
  {
    forall j, m, name, dep | wave + 1 <= j < |plan.waves| && 0 <= m < wave + 1 && name in plan.waves[j] &&
      dep in plan.waves[m]
      && NeedsHealthy(plan, name, dep) && dep !in world.blocked && dep in world.checked
      ensures SeenHealthy(trace, |trace|, dep)
    {
      if m < wave {
        assert SeenHealthy(before, |before|, dep);
      } else {
        var later := plan.waves[wave + 1..];
        FlatHas(later, name);
        assert later[j - wave - 1] == plan.waves[j];
        WantedMeansNeeded(plan, Flat(later), dep);
      }
    }
  }

  lemma PendingOfFlat(world: World, waves: seq<seq<string>>, i: nat)
    requires i < |waves|
    ensures Pending(world, Flat(waves[..i + 1])) == Pending(world, Flat(waves[..i])) + Pending(world, waves[i])
  {
    assert waves[..i + 1][..i] == waves[..i];
    PendingAppend(world, Flat(waves[..i]), waves[i]);
  }

  /** Every wave before `k` is fine, and `k` is not. */
  ghost predicate FirstFailing(plan: Plan, world: World, k: int) {
    0 <= k < |plan.waves| && !WaveFine(plan, world, k) && forall j :: 0 <= j < k ==> WaveFine(plan, world, j)
  }

  /**
   start() from the first wave on. On success every name that was neither blocked
   nor already up has been launched, wave by wave, and never before its healthy
   dependencies were seen healthy; after a failed launch or wait no later wave is launched.
   It succeeds exactly when every launch and every wait does; otherwise all pending names of
   the waves up to the first that fails have been launched, and no others.
   */
  method Start(plan: Plan, world: World) returns (trace: seq<Event>, ok: bool)
    requires Ordered(plan)
    ensures Gated(plan, world, trace) && StopsAtFailure(trace) && Truthful(world, trace)
    ensures ok <==> AllFine(trace)
    ensures ok <==> forall k :: 0 <= k < |plan.waves| ==> WaveFine(plan, world, k)
    ensures ok ==> Launched(trace) == Pending(world, Flat(plan.waves))
    ensures !ok ==> exists k :: FirstFailing(plan, world, k) &&
                      Launched(trace) == Pending(world, Flat(plan.waves[..k + 1]))
  {
    trace, ok := [], true;
    for i := 0 to |plan.waves|
      invariant ok && AllFine(trace) && Gated(plan, world, trace) && Truthful(world, trace)
      invariant forall k :: 0 <= k < i ==> WaveFine(plan, world, k)
      invariant forall p :: 0 <= p < |trace| ==> trace[p].wave < i
      invariant SeenBefore(plan, world, i, trace)
      invariant Launched(trace) == Pending(world, Flat(plan.waves[..i]))
    {
      ghost var before := trace;
      WaveIsGated(plan, world, i, trace);
      PendingOfFlat(world, plan.waves, i);
      AwaitedForLater(plan, world, i);
      trace, ok := LaunchWave(plan, world, i, trace);
      if !ok {
        assert FirstFailing(plan, world, i);
        return;
      }
      if i < |plan.waves| - 1 {
        trace, ok := AwaitWaveHealth(plan, world, i, Flat(plan.waves[i + 1..]), trace);
        if !ok {
          assert FirstFailing(plan, world, i);
          return;
        }
      }
      NextSeenBefore(plan, world, i, before, trace);
    }
    assert plan.waves[..|plan.waves|] == plan.waves;
  }
}
