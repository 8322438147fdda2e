/** The layers of the service graph: Kahn's algorithm, with what lies on cycles as a last layer. */
module GraphLayers {
  import opened LayerTheory
  import opened NameOrder
  import opened Services

  /** How many of the dependencies are in `wanted`, counting repetitions. */
  function Weight(deps: seq<string>, wanted: set<string>): nat {
    if deps == [] then 0 else Weight(deps[..|deps| - 1], wanted) + if deps[|deps| - 1] in wanted then 1 else 0
  }

  lemma WeightNext(deps: seq<string>, wanted: set<string>, dep: string)
    ensures Weight(deps + [dep], wanted) == Weight(deps, wanted) + if dep in wanted then 1 else 0
  {
    assert (deps + [dep])[..|deps|] == deps;
  }

  lemma {:induction false} WeightWithout(deps: seq<string>, wanted: set<string>, dep: string)
    ensures Weight(deps, wanted) == Weight(deps, wanted - {dep}) + if dep in wanted then multiset(deps)[dep] else 0
  {
    if deps != [] {
      var n := |deps| - 1;
      assert deps == deps[..n] + [deps[n]];
      WeightWithout(deps[..n], wanted, dep);
    }
  }

  lemma {:induction false} WeightIsZero(deps: seq<string>, wanted: set<string>)
    ensures Weight(deps, wanted) == 0 <==> forall dep :: dep in deps ==> dep !in wanted
  {
    if deps != [] {
      var n := |deps| - 1;
      assert deps == deps[..n] + [deps[n]];
      WeightIsZero(deps[..n], wanted);
    }
  }

  /** The dependencies of a service that are drawn: those on other known services. */
  function Others(services: seq<Service>, a: nat): set<string>
    requires a < |services|
  {
    Names(services) - {services[a].name}
  }

  /** The count of each service after the dependencies `seen`. */
  ghost predicate Counted(services: seq<Service>, seen: seq<seq<string>>, incoming: map<string, int>) {
    && |seen| == |services| && incoming.Keys == Names(services)
    && forall a :: 0 <= a < |services| ==> incoming[services[a].name] == Weight(seen[a], Others(services, a))
  }

  ghost predicate Listed(services: seq<Service>, seen: seq<seq<string>>, outgoing: map<string, seq<string>>) {
    && |seen| == |services| && outgoing.Keys == Names(services)
    && forall m :: m in Names(services) ==> Lists(services, seen, m, outgoing[m])
  }

  /** `children` holds each service as often as it has seen the dependency `m`. */
  ghost predicate Lists(services: seq<Service>, seen: seq<seq<string>>, m: string, children: seq<string>)
    requires |seen| == |services|
  {
    && (forall c :: c in children ==> c in Names(services))
    && (forall a :: 0 <= a < |services| ==>
          multiset(children)[services[a].name] == if services[a].name == m then 0 else multiset(seen[a])[m])
  }

  lemma NameIn(services: seq<Service>, a: nat)
    requires a < |services|
    ensures services[a].name in Names(services)
  {
  }

  lemma ListsOne(services: seq<Service>, seen: seq<seq<string>>, m: string, children: seq<string>, i: nat,
                 name: string, dep: string, seenNow: seq<seq<string>>, childrenNow: seq<string>)
    requires UniqueNames(services) && |seen| == |services| && Lists(services, seen, m, children) && i < |services|
    requires services[i].name == name && seenNow == seen[i := seen[i] + [dep]]
    requires childrenNow == if dep == m && dep != name then children + [name] else children
    ensures Lists(services, seenNow, m, childrenNow)
  {
    NameIn(services, i);
    assert multiset(seen[i] + [dep]) == multiset(seen[i]) + multiset{dep};
    assert multiset(children + [name]) == multiset(children) + multiset{name};
  }

  lemma CountOne(services: seq<Service>, seen: seq<seq<string>>, incoming: map<string, int>, i: nat, name: string,
                 dep: string, count: int, seenNow: seq<seq<string>>)
    returns (counted: map<string, int>)
    requires UniqueNames(services) && Counted(services, seen, incoming) && i < |services| && services[i].name == name
    requires name in incoming
    requires seenNow == seen[i := seen[i] + [dep]]
    requires count == incoming[name] + 1
    ensures counted == incoming[name := count]
    ensures dep in Names(services) && dep != name ==> Counted(services, seenNow, counted)
    ensures !(dep in Names(services) && dep != name) ==> Counted(services, seenNow, incoming)
  {
    NameIn(services, i);
    WeightNext(seen[i], Others(services, i), dep);
    counted := incoming[name := count];
  }

  /** A dependency that is drawn adds the service to one list. */
  lemma ListMore(services: seq<Service>, seen: seq<seq<string>>, outgoing: map<string, seq<string>>, i: nat,
                 name: string, dep: string, seenNow: seq<seq<string>>, listed: map<string, seq<string>>)
    requires UniqueNames(services) && Listed(services, seen, outgoing) && i < |services| && services[i].name == name
    requires seenNow == seen[i := seen[i] + [dep]] && dep in Names(services) && dep != name
    requires listed == outgoing[dep := outgoing[dep] + [name]]
    ensures Listed(services, seenNow, listed)
  {
    forall m | m in Names(services)
      ensures Lists(services, seenNow, m, listed[m])
    {
      ListsOne(services, seen, m, outgoing[m], i, name, dep, seenNow, listed[m]);
    }
  }

  /** Any other changes no list. */
  lemma ListSame(services: seq<Service>, seen: seq<seq<string>>, outgoing: map<string, seq<string>>, i: nat,
                 name: string, dep: string, seenNow: seq<seq<string>>)
    requires UniqueNames(services) && Listed(services, seen, outgoing) && i < |services| && services[i].name == name
    requires seenNow == seen[i := seen[i] + [dep]] && !(dep in Names(services) && dep != name)
    ensures Listed(services, seenNow, outgoing)
  {
    forall m | m in Names(services)
      ensures Lists(services, seenNow, m, outgoing[m])
    {
      ListsOne(services, seen, m, outgoing[m], i, name, dep, seenNow, outgoing[m]);
    }
  }

  lemma ListOne(services: seq<Service>, seen: seq<seq<string>>, outgoing: map<string, seq<string>>, i: nat,
                name: string, dep: string, seenNow: seq<seq<string>>)
    returns (listed: map<string, seq<string>>)
    requires UniqueNames(services) && Listed(services, seen, outgoing) && i < |services| && services[i].name == name
    requires seenNow == seen[i := seen[i] + [dep]]
    ensures dep in Names(services) && dep != name ==>
            listed == outgoing[dep := outgoing[dep] + [name]] && Listed(services, seenNow, listed)
    ensures !(dep in Names(services) && dep != name) ==> Listed(services, seenNow, outgoing)
  {
    listed := outgoing;
    if dep in Names(services) && dep != name {
      listed := outgoing[dep := outgoing[dep] + [name]];
      ListMore(services, seen, outgoing, i, name, dep, seenNow, listed);
    } else {
      ListSame(services, seen, outgoing, i, name, dep, seenNow);
    }
  }

  /** All dependencies of the first `i` services and `j` of the next. */
  ghost function Seen(services: seq<Service>, i: nat, j: nat): (seen: seq<seq<string>>)
    requires i <= |services| && (i < |services| ==> j <= |services[i].dependencies|)
    ensures |seen| == |services|
  {
    seq(|services|, a requires 0 <= a < |services| =>
      if a < i then services[a].dependencies else if a == i then services[a].dependencies[..j] else [])
  }

  lemma SeenNext(services: seq<Service>, i: nat, j: nat)
    requires i < |services| && j < |services[i].dependencies|
    ensures Seen(services, i, j + 1) ==
            Seen(services, i, j)[i := Seen(services, i, j)[i] + [services[i].dependencies[j]]]
  {
    var deps := services[i].dependencies;
    assert deps[..j + 1] == deps[..j] + [deps[j]];
  }

  lemma SeenRow(services: seq<Service>, i: nat)
    requires i < |services|
    ensures Seen(services, i, |services[i].dependencies|) == Seen(services, i + 1, 0)
  {
    var deps := services[i].dependencies;
    assert deps[..|deps|] == deps;
  }

  ghost function AllSeen(services: seq<Service>): seq<seq<string>> {
    Seen(services, |services|, 0)
  }

  /** The dependencies of one service. */
  method TallyService(services: seq<Service>, i: nat, incoming0: map<string, int>, outgoing0: map<string, seq<string>>)
    returns (incoming: map<string, int>, outgoing: map<string, seq<string>>)
    requires UniqueNames(services) && i < |services|
    requires Counted(services, Seen(services, i, 0), incoming0) && Listed(services, Seen(services, i, 0), outgoing0)
    ensures Counted(services, Seen(services, i + 1, 0), incoming)
    ensures Listed(services, Seen(services, i + 1, 0), outgoing)
  {
    incoming, outgoing := incoming0, outgoing0;
    var name, deps := services[i].name, services[i].dependencies;
    NameIn(services, i);
    ghost var seen := Seen(services, i, 0);
    for j := 0 to |deps|
      invariant seen == Seen(services, i, j)
      invariant Counted(services, seen, incoming) && Listed(services, seen, outgoing)
    {
      var from := deps[j];
      ghost var before := seen;
      SeenNext(services, i, j);
      seen := Seen(services, i, j + 1);
      var count := incoming[name] + 1;
      ghost var counted := CountOne(services, before, incoming, i, name, from, count, seen);
      ghost var listed := ListOne(services, before, outgoing, i, name, from, seen);
      if from in Names(services) && from != name {
        outgoing := outgoing[from := outgoing[from] + [name]];
        incoming := incoming[name := count];
        assert incoming == counted && outgoing == listed;
      }
    }
    SeenRow(services, i);
  }

  method Tally(services: seq<Service>) returns (incoming: map<string, int>, outgoing: map<string, seq<string>>)
    requires UniqueNames(services)
    ensures Counted(services, AllSeen(services), incoming) && Listed(services, AllSeen(services), outgoing)
  {
    var known := Names(services);
    incoming, outgoing := map name | name in known :: 0, map name | name in known :: [];
    for i := 0 to |services|
      invariant Counted(services, Seen(services, i, 0), incoming) && Listed(services, Seen(services, i, 0), outgoing)
    {
      incoming, outgoing := TallyService(services, i, incoming, outgoing);
    }
  }

  // Taking a placed service away.

  /** `incoming` counts the dependencies on services that are not in `done`. */
  ghost predicate Counts(services: seq<Service>, incoming: map<string, int>, done: set<string>) {
    && incoming.Keys == Names(services)
    && forall a :: 0 <= a < |services| ==>
         incoming[services[a].name] == Weight(services[a].dependencies, Others(services, a) - done)
  }

  /** The same while the first `j` children of `m` have been counted down. */
  ghost predicate CountsWithin(services: seq<Service>, incoming: map<string, int>, done: set<string>,
                               children: seq<string>, j: nat) {
    && j <= |children| && incoming.Keys == Names(services)
    && forall a :: 0 <= a < |services| ==>
         incoming[services[a].name] ==
           Weight(services[a].dependencies, Others(services, a) - done) - multiset(children[..j])[services[a].name]
  }

  lemma OneMoreLeft(children: seq<string>, j: nat)
    requires j < |children|
    ensures multiset(children)[children[j]] >= multiset(children[..j])[children[j]] + 1
  {
    assert children == children[..j] + ([children[j]] + children[j + 1..]);
  }

  lemma AllSeenAt(services: seq<Service>, a: nat)
    requires a < |services|
    ensures AllSeen(services)[a] == services[a].dependencies
  {
  }

  /** A service that is still to be counted down has a count of at least one. */
  lemma StillCounted(services: seq<Service>, incoming: map<string, int>, done: set<string>, m: string,
                     children: seq<string>, j: nat, a: nat)
    requires CountsWithin(services, incoming, done, children, j) && j < |children|
    requires Lists(services, AllSeen(services), m, children) && m in Names(services) && m !in done
    requires a < |services| && services[a].name == children[j]
    ensures children[j] in incoming && incoming[children[j]] >= 1
  {
    NameIn(services, a);
    OneMoreLeft(children, j);
    AllSeenAt(services, a);
    WeightWithout(services[a].dependencies, Others(services, a) - done, m);
  }

  lemma CountDown(services: seq<Service>, incoming: map<string, int>, done: set<string>, children: seq<string>,
                  j: nat, left: int)
    requires UniqueNames(services) && CountsWithin(services, incoming, done, children, j) && j < |children|
    requires children[j] in incoming
    requires left == incoming[children[j]] - 1
    ensures CountsWithin(services, incoming[children[j] := left], done, children, j + 1)
  {
    assert children[..j + 1] == children[..j] + [children[j]];
  }

  lemma CountedDown(services: seq<Service>, incoming: map<string, int>, done: set<string>, m: string,
                    children: seq<string>)
    requires CountsWithin(services, incoming, done, children, |children|)
    requires Lists(services, AllSeen(services), m, children) && m in Names(services) && m !in done
    ensures Counts(services, incoming, done + {m})
  {
    assert children[..|children|] == children;
    forall a | 0 <= a < |services|
      ensures incoming[services[a].name] == Weight(services[a].dependencies, Others(services, a) - (done + {m}))
    {
      WeightWithout(services[a].dependencies, Others(services, a) - done, m);
      assert Others(services, a) - done - {m} == Others(services, a) - (done + {m});
    }
  }

  /** `next` holds the services whose last dependency has been placed. */
  ghost predicate Released(services: seq<Service>, incoming: map<string, int>, placed: set<string>, next: seq<string>)
    requires incoming.Keys == Names(services)
  {
    forall name :: name in next <==> name in Names(services) && name !in placed && incoming[name] == 0
  }

  lemma ReleaseOne(services: seq<Service>, incoming: map<string, int>, placed: set<string>, next: seq<string>,
                   child: string, left: int)
    requires incoming.Keys == Names(services) && Released(services, incoming, placed, next)
    requires child in incoming && incoming[child] >= 1 && left == incoming[child] - 1
    ensures Released(services, incoming[child := left], placed,
                     if left == 0 && child !in placed then next + [child] else next)
  {
  }

  method TakeAway(services: seq<Service>, incoming0: map<string, int>, ghost done: set<string>, ghost m: string,
                  children: seq<string>,
                  placed: set<string>, next0: seq<string>)
    returns (incoming: map<string, int>, next: seq<string>)
    requires UniqueNames(services) && Counts(services, incoming0, done) && Released(services, incoming0, placed, next0)
    requires Lists(services, AllSeen(services), m, children) && m in Names(services) && m !in done
    ensures Counts(services, incoming, done + {m}) && Released(services, incoming, placed, next)
  {
    incoming, next := incoming0, next0;
    for j := 0 to |children|
      invariant CountsWithin(services, incoming, done, children, j) && Released(services, incoming, placed, next)
    {
      var child := children[j];
      assert child in children;
      ghost var a :| 0 <= a < |services| && services[a].name == child;
      StillCounted(services, incoming, done, m, children, j, a);
      var left := incoming[child] - 1;
      CountDown(services, incoming, done, children, j, left);
      ReleaseOne(services, incoming, placed, next, child, left);
      incoming := incoming[child := left];
      if left == 0 && child !in placed {
        next := next + [child];
      }
    }
    CountedDown(services, incoming, done, m, children);
  }

  // The levels.

  /** A count of zero means that everything the service depends on has been placed. */
  lemma ZeroIsReady(services: seq<Service>, incoming: map<string, int>, placed: set<string>, a: nat)
    requires UniqueNames(services) && Counts(services, incoming, placed) && a < |services|
    ensures incoming[services[a].name] == 0 <==>
            forall from :: Edge(services, from, services[a].name) ==> from in placed
  {
    var deps := services[a].dependencies;
    WeightIsZero(deps, Others(services, a) - placed);
    forall from: string
      ensures Edge(services, from, services[a].name) <==> from in deps && from in Others(services, a)
    {
    }
  }

  lemma ReleasedAreReady(services: seq<Service>, incoming: map<string, int>, placed: set<string>, name: string)
    requires UniqueNames(services) && Counts(services, incoming, placed)
    ensures name in Ready(services, placed) <==> name in Names(services) && name !in placed && incoming[name] == 0
  {
    if name in Names(services) {
      var a :| 0 <= a < |services| && services[a].name == name;
      ZeroIsReady(services, incoming, placed, a);
    }
  }

  lemma SortReleased(services: seq<Service>, incoming: map<string, int>, placed: set<string>, next: seq<string>)
    requires UniqueNames(services) && Counts(services, incoming, placed) && Released(services, incoming, placed, next)
    ensures Listing(Sort(Dedupe(next)), Ready(services, placed))
  {
    forall name: string
      ensures name in Dedupe(next) <==> name in Ready(services, placed)
    {
      ReleasedAreReady(services, incoming, placed, name);
    }
    SortLists(Dedupe(next), Ready(services, placed));
  }

  /** The names, in the order of the configuration, for which `keep` holds. */
  function Filter(services: seq<Service>, keep: string -> bool): (list: seq<string>)
    ensures forall name :: name in list <==> name in Names(services) && keep(name)
    ensures UniqueNames(services) ==> forall i, j :: 0 <= i < j < |list| ==> list[i] != list[j]
  {
    if services == [] then []
    else
      var n := |services| - 1;
      var before := Filter(services[..n], keep);
      assert services == services[..n] + [services[n]];
      assert UniqueNames(services) ==> services[n].name !in Names(services[..n]);
      if keep(services[n].name) then before + [services[n].name] else before
  }

  lemma NoneReleasedYet(services: seq<Service>, incoming: map<string, int>, before: set<string>, placed: set<string>)
    requires UniqueNames(services) && Counts(services, incoming, before) && placed == before + Ready(services, before)
    ensures Released(services, incoming, placed, [])
  {
    forall name: string
      ensures !(name in Names(services) && name !in placed && incoming[name] == 0)
    {
      ReleasedAreReady(services, incoming, before, name);
    }
  }

  function Elements(list: seq<string>): set<string> {
    set name | name in list
  }

  lemma ElementsNext(list: seq<string>, i: nat)
    requires i < |list|
    ensures Elements(list[..i + 1]) == Elements(list[..i]) + {list[i]}
  {
    assert list[..i + 1] == list[..i] + [list[i]];
  }

  lemma FrontierDone(services: seq<Service>, frontier: seq<string>, before: set<string>)
    requires Listing(frontier, Ready(services, before))
    ensures Elements(frontier[..|frontier|]) == Ready(services, before)
  {
    assert frontier[..|frontier|] == frontier;
  }

  lemma FrontierName(services: seq<Service>, frontier: seq<string>, before: set<string>, i: nat)
    requires Listing(frontier, Ready(services, before)) && i < |frontier|
    ensures frontier[i] in Names(services) && frontier[i] !in before && frontier[i] !in frontier[..i]
  {
    LessIsStrict(frontier[i]);
    assert frontier[i] in frontier;
  }

  /** One frontier: its services are taken away and the next frontier is found. */
  method NextFrontier(services: seq<Service>, incoming0: map<string, int>, outgoing: map<string, seq<string>>,
                      frontier: seq<string>, ghost before: set<string>, placed: set<string>)
    returns (incoming: map<string, int>, next: seq<string>)
    requires UniqueNames(services) && Counts(services, incoming0, before)
    requires Listed(services, AllSeen(services), outgoing)
    requires Listing(frontier, Ready(services, before)) && placed == before + Ready(services, before)
    ensures Counts(services, incoming, placed) && Listing(next, Ready(services, placed))
  {
    incoming := incoming0;
    var found: seq<string> := [];
    ghost var done := before;
    NoneReleasedYet(services, incoming, before, placed);
    for i := 0 to |frontier|
      invariant Counts(services, incoming, done) && Released(services, incoming, placed, found)
      invariant done == before + Elements(frontier[..i])
    {
      var name := frontier[i];
      FrontierName(services, frontier, before, i);
      incoming, found := TakeAway(services, incoming, done, name, outgoing[name], placed, found);
      ElementsNext(frontier, i);
      done := done + {name};
    }
    FrontierDone(services, frontier, before);
    SortReleased(services, incoming, placed, found);
    next := Sort(Dedupe(found));
  }

  /** The levels as the theory has them, each sorted, and what is left over as it is configured. */
  ghost predicate AreLayers(services: seq<Service>, layers: seq<seq<string>>) {
    var levels := Levels(services, {});
    var placed := if Leftover(services) == {} then |layers| else |layers| - 1;
    && placed == |levels|
    && (forall k :: 0 <= k < |levels| ==> Listing(layers[k], levels[k]))
    && (Leftover(services) != {} ==> layers[|levels|] == Filter(services, name => name in Leftover(services)))
  }

  lemma {:induction false} FilterSame(services: seq<Service>, f: string -> bool, g: string -> bool)
    requires forall name :: name in Names(services) ==> f(name) == g(name)
    ensures Filter(services, f) == Filter(services, g)
  {
    if services != [] {
      var n := |services| - 1;
      assert services == services[..n] + [services[n]];
      FilterSame(services[..n], f, g);
    }
  }

  lemma NothingDone(services: seq<Service>, incoming: map<string, int>)
    requires Counted(services, AllSeen(services), incoming)
    ensures Counts(services, incoming, {})
  {
    forall a | 0 <= a < |services|
      ensures incoming[services[a].name] == Weight(services[a].dependencies, Others(services, a) - {})
    {
      AllSeenAt(services, a);
      assert Others(services, a) - {} == Others(services, a);
    }
  }

  lemma FirstFrontier(services: seq<Service>, incoming: map<string, int>, zero: seq<string>)
    requires UniqueNames(services) && Counts(services, incoming, {})
    requires zero == Filter(services, name => name in incoming && incoming[name] == 0)
    ensures Listing(Sort(zero), Ready(services, {}))
  {
    forall name: string
      ensures name in zero <==> name in Ready(services, {})
    {
      ReleasedAreReady(services, incoming, {}, name);
    }
    SortLists(zero, Ready(services, {}));
  }

  /** The levels up to `placed` are those before `done`, and the rest follow. */
  ghost predicate UpTo(services: seq<Service>, layers: seq<seq<string>>, placed: set<string>) {
    var levels := Levels(services, {});
    && |layers| <= |levels| && Levels(services, placed) == levels[|layers|..]
    && placed == Union(levels[..|layers|])
    && forall k :: 0 <= k < |layers| ==> Listing(layers[k], levels[k])
  }

  lemma {:induction false} UnionSnoc(levels: seq<set<string>>, level: set<string>)
    ensures Union(levels + [level]) == Union(levels) + level
  {
    if levels != [] {
      assert (levels + [level])[1..] == levels[1..] + [level];
      UnionSnoc(levels[1..], level);
    }
  }

  lemma NextLevel(services: seq<Service>, layers: seq<seq<string>>, placed: set<string>, frontier: seq<string>)
    requires UpTo(services, layers, placed) && Listing(frontier, Ready(services, placed)) && frontier != []
    ensures UpTo(services, layers + [frontier], placed + Ready(services, placed))
    ensures Names(services) - (placed + Ready(services, placed)) < Names(services) - placed
  {
    var levels, k, ready := Levels(services, {}), |layers|, Ready(services, placed);
    assert frontier[0] in ready;
    assert levels[k..] == [ready] + Levels(services, placed + ready);
    assert levels[k] == levels[k..][0] == ready && levels[k + 1..] == levels[k..][1..];
    assert levels[..k + 1] == levels[..k] + [ready];
    UnionSnoc(levels[..k], ready);
  }

  lemma LastLevel(services: seq<Service>, layers: seq<seq<string>>, placed: set<string>)
    requires UpTo(services, layers, placed) && Listing([], Ready(services, placed))
    ensures |layers| == |Levels(services, {})| && Leftover(services) == Names(services) - placed
  {
    assert Ready(services, placed) == {};
    var levels := Levels(services, {});
    assert levels[|layers|..] == [] && levels[..|layers|] == levels;
  }

  lemma Conclude(services: seq<Service>, layers: seq<seq<string>>, placed: set<string>, keep: string -> bool,
                 leftover: seq<string>)
    requires UpTo(services, layers, placed) && Listing([], Ready(services, placed))
    requires (forall name :: keep(name) == (name !in placed)) && leftover == Filter(services, keep)
    ensures AreLayers(services, if leftover != [] then layers + [leftover] else layers)
  {
    LastLevel(services, layers, placed);
    FilterSame(services, keep, name => name in Leftover(services));
    if leftover == [] {
      assert Leftover(services) == {};
    } else {
      assert leftover[0] in leftover;
      assert leftover[0] in Leftover(services);
    }
  }

  method Layers(services: seq<Service>) returns (layers: seq<seq<string>>)
    requires UniqueNames(services)
    ensures AreLayers(services, layers)
  {
    var incoming, outgoing := Tally(services);
    layers := [];
    NothingDone(services, incoming);
    var zero := Filter(services, name => name in incoming && incoming[name] == 0);
    FirstFrontier(services, incoming, zero);
    var frontier := Sort(zero);
    var placed: set<string> := {};
    while frontier != []
      invariant Counts(services, incoming, placed) && Listing(frontier, Ready(services, placed))
      invariant UpTo(services, layers, placed)
      decreases Names(services) - placed
    {
      NextLevel(services, layers, placed, frontier);
      layers := layers + [frontier];
      ghost var before := placed;
      FrontierDone(services, frontier, before);
      placed := placed + Elements(frontier[..|frontier|]);
      incoming, frontier := NextFrontier(services, incoming, outgoing, frontier, before, placed);
    }
    var keep := name => name !in placed;
    var leftover := Filter(services, keep);
    Conclude(services, layers, placed, keep, leftover);
    if leftover != [] {
      layers := layers + [leftover];
    }
  }

  /** The names that are kept stand as they are configured. */
  lemma {:induction false} FilterInOrder(services: seq<Service>, keep: string -> bool, i: nat, j: nat)
    returns (a: nat, b: nat)
    requires i < j < |Filter(services, keep)|
    ensures a < b < |services| && services[a].name == Filter(services, keep)[i]
    ensures services[b].name == Filter(services, keep)[j]
  {
    var n := |services| - 1;
    var before := services[..n];
    if j < |Filter(before, keep)| {
      a, b := FilterInOrder(before, keep, i, j);
    } else {
      b := n;
      a := PlaceOfName(before, Filter(before, keep)[i]);
    }
  }

  lemma PlaceOfName(services: seq<Service>, name: string) returns (a: nat)
    requires name in Names(services)
    ensures a < |services| && services[a].name == name
  {
    a :| 0 <= a < |services| && services[a].name == name;
  }

  /** What is left over stands in the last layer as it is configured. */
  lemma LeftoverInOrder(services: seq<Service>, layers: seq<seq<string>>, i: nat, j: nat) returns (a: nat, b: nat)
    requires AreLayers(services, layers) && Leftover(services) != {} && i < j < |layers[|layers| - 1]|
    ensures a < b < |services|
    ensures services[a].name == layers[|layers| - 1][i] && services[b].name == layers[|layers| - 1][j]
  {
    a, b := FilterInOrder(services, name => name in Leftover(services), i, j);
  }

  /** Every service has a place in the layers. */
  lemma EveryNameIsPlaced(services: seq<Service>, layers: seq<seq<string>>, name: string) returns (k: nat, i: nat)
    requires AreLayers(services, layers) && name in Names(services)
    ensures k < |layers| && i < |layers[k]| && layers[k][i] == name
  {
    if name in Leftover(services) {
      k := |layers| - 1;
      assert name in layers[k];
    } else {
      k := InSomeLevel(Levels(services, {}), name);
      assert name in layers[k];
    }
    i :| 0 <= i < |layers[k]| && layers[k][i] == name;
  }

  lemma InLayer(services: seq<Service>, layers: seq<seq<string>>, k: nat, i: nat)
    requires UniqueNames(services) && AreLayers(services, layers) && k < |layers| && i < |layers[k]|
    ensures if k < |Levels(services, {})| then layers[k][i] in Levels(services, {})[k]
            else layers[k][i] in Leftover(services)
    ensures forall j :: 0 <= j < |layers[k]| && layers[k][j] == layers[k][i] ==> j == i
  {
    assert layers[k][i] in layers[k];
    if k < |Levels(services, {})| {
      AscendingIsDistinct(layers[k], i);
    }
  }

  lemma AscendingIsDistinct(list: seq<string>, i: nat)
    requires Ascending(list) && i < |list|
    ensures forall j :: 0 <= j < |list| && list[j] == list[i] ==> j == i
  {
    LessIsStrict(list[i]);
  }

  /** It has only one. */
  lemma NoNameIsPlacedTwice(services: seq<Service>, layers: seq<seq<string>>, k: nat, i: nat, l: nat, j: nat)
    requires UniqueNames(services) && AreLayers(services, layers)
    requires k < |layers| && i < |layers[k]| && l < |layers| && j < |layers[l]| && layers[k][i] == layers[l][j]
    ensures k == l && i == j
  {
    var levels, name := Levels(services, {}), layers[k][i];
    InLayer(services, layers, k, i);
    InLayer(services, layers, l, j);
    if k < |levels| && l < |levels| {
      OneLevel(services, k, l, name);
    } else if k < |levels| {
      InUnion(levels, k, name);
    } else if l < |levels| {
      InUnion(levels, l, name);
    }
  }
}
