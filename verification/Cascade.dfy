/** Which services are restarted along with a selection: those that depend on it, through others too. */
module Cascade {
  import opened Services

  predicate DependsOnSet(service: Service, selected: set<string>, extra: set<string>) {
    exists dep :: dep in service.dependencies && (dep in selected || dep in extra)
  }

  predicate DirectlyDepends(config: seq<Service>, from: string, to: string) {
    exists i :: 0 <= i < |config| && config[i].name == from && to in config[i].dependencies
  }

  /** A walk along dependencies. */
  predicate IsPath(config: seq<Service>, path: seq<string>) {
    path != [] && forall i :: 0 <= i < |path| - 1 ==> DirectlyDepends(config, path[i], path[i + 1])
  }

  ghost predicate LeadsTo(config: seq<Service>, name: string, selected: set<string>, path: seq<string>) {
    IsPath(config, path) && path[0] == name && path[|path| - 1] in selected
  }

  ghost predicate Reaches(config: seq<Service>, name: string, selected: set<string>) {
    exists path :: LeadsTo(config, name, selected, path)
  }

  ghost predicate Sound(config: seq<Service>, selected: set<string>, extra: set<string>) {
    extra <= Names(config) - selected && forall name :: name in extra ==> Reaches(config, name, selected)
  }

  /** No service outside depends on one inside. */
  predicate ClosedUpTo(config: seq<Service>, selected: set<string>, extra: set<string>, n: nat)
    requires n <= |config|
  {
    forall i :: 0 <= i < n && config[i].name !in selected && config[i].name !in extra ==>
      !DependsOnSet(config[i], selected, extra)
  }

  lemma OneMoreReaches(config: seq<Service>, selected: set<string>, extra: set<string>, i: nat)
    requires i < |config| && Sound(config, selected, extra) && DependsOnSet(config[i], selected, extra)
    ensures Reaches(config, config[i].name, selected)
  {
    var dep :| dep in config[i].dependencies && (dep in selected || dep in extra);
    var path := [dep];
    if dep !in selected {
      path :| LeadsTo(config, dep, selected, path);
    }
    assert LeadsTo(config, dep, selected, path);
    var longer := [config[i].name] + path;
    assert forall k :: 0 < k < |longer| ==> longer[k] == path[k - 1];
    assert LeadsTo(config, config[i].name, selected, longer);
  }

  /**
   Of the first `n` services, ever later ones in the order of the configuration: the first depends on
   `selected` or `extra`, each other one on the one before, and the last is called `name`.
   */
  predicate RisesTo(config: seq<Service>, selected: set<string>, extra: set<string>, chain: seq<nat>, name: string,
                    n: nat)
    requires n <= |config|
  {
    && chain != [] && (forall k :: 0 <= k < |chain| ==> chain[k] < n)
    && DependsOnSet(config[chain[0]], selected, extra)
    && (forall k :: 0 <= k < |chain| - 1 ==>
          chain[k] < chain[k + 1] && config[chain[k]].name in config[chain[k + 1]].dependencies)
    && config[chain[|chain| - 1]].name == name
  }

  ghost predicate Risen(config: seq<Service>, selected: set<string>, extra: set<string>, name: string, n: nat)
    requires n <= |config|
  {
    exists chain :: RisesTo(config, selected, extra, chain, name, n)
  }

  lemma RisesOn(config: seq<Service>, selected: set<string>, extra: set<string>, name: string, i: nat)
    requires i < |config| && Risen(config, selected, extra, name, i) && name in config[i].dependencies
    ensures Risen(config, selected, extra, config[i].name, i + 1)
  {
    var chain :| RisesTo(config, selected, extra, chain, name, i);
    assert RisesTo(config, selected, extra, chain + [i], config[i].name, i + 1);
  }

  lemma RisesAlone(config: seq<Service>, selected: set<string>, extra: set<string>, i: nat)
    requires i < |config| && DependsOnSet(config[i], selected, extra)
    ensures Risen(config, selected, extra, config[i].name, i + 1)
  {
    assert RisesTo(config, selected, extra, [i], config[i].name, i + 1);
  }

  /** A chain ends before service `i`, or there, right behind a chain that ends before it. */
  lemma RisenBefore(config: seq<Service>, selected: set<string>, extra: set<string>, name: string, i: nat)
    requires i < |config| && Risen(config, selected, extra, name, i + 1)
    ensures
      || Risen(config, selected, extra, name, i)
      || (name == config[i].name
          && (DependsOnSet(config[i], selected, extra)
              || exists dep :: dep in config[i].dependencies && Risen(config, selected, extra, dep, i)))
  {
    var chain :| RisesTo(config, selected, extra, chain, name, i + 1);
    var m := |chain| - 1;
    if m > 0 {
      var front := chain[..m];
      FrontBelow(config, selected, extra, chain, name, i);
      var dep := config[chain[m - 1]].name;
      assert chain[m - 1 + 1] == chain[m];
      assert RisesTo(config, selected, extra, front, dep, i);
    }
    if chain[m] < i {
      ChainBelow(config, selected, extra, chain, name, i);
    }
  }

  lemma {:induction false} BelowLast(chain: seq<nat>, k: nat)
    requires k < |chain| && forall k :: 0 <= k < |chain| - 1 ==> chain[k] < chain[k + 1]
    ensures chain[k] <= chain[|chain| - 1]
    decreases |chain| - k
  {
    if k < |chain| - 1 {
      BelowLast(chain, k + 1);
    }
  }

  lemma ChainBelow(config: seq<Service>, selected: set<string>, extra: set<string>, chain: seq<nat>, name: string,
                   i: nat)
    requires i < |config| && RisesTo(config, selected, extra, chain, name, i + 1) && chain[|chain| - 1] < i
    ensures RisesTo(config, selected, extra, chain, name, i)
  {
    forall k | 0 <= k < |chain|
      ensures chain[k] < i
    {
      BelowLast(chain, k);
    }
  }

  lemma FrontBelow(config: seq<Service>, selected: set<string>, extra: set<string>, chain: seq<nat>, name: string,
                   i: nat)
    requires i < |config| && RisesTo(config, selected, extra, chain, name, i + 1) && |chain| > 1
    ensures forall k :: 0 <= k < |chain| - 1 ==> chain[k] < i
  {
    forall k | 0 <= k < |chain| - 1
      ensures chain[k] < i
    {
      BelowLast(chain, k + 1);
      assert chain[k] < chain[k + 1];
    }
  }

  /** What a pass over the first `n` services has added to `extra0`. */
  ghost predicate PassHolds(config: seq<Service>, selected: set<string>, extra0: set<string>, extra: set<string>,
                            n: nat)
    requires n <= |config|
  {
    forall name :: name in extra <==> name in extra0 || (name !in selected && Risen(config, selected, extra0, name, n))
  }

  lemma RisenGrows(config: seq<Service>, selected: set<string>, extra: set<string>, name: string, i: nat)
    requires i < |config| && Risen(config, selected, extra, name, i)
    ensures Risen(config, selected, extra, name, i + 1)
  {
    var chain :| RisesTo(config, selected, extra, chain, name, i);
    assert RisesTo(config, selected, extra, chain, name, i + 1);
  }

  lemma ServiceRisen(config: seq<Service>, selected: set<string>, extra0: set<string>, extra: set<string>, i: nat)
    requires i < |config| && PassHolds(config, selected, extra0, extra, i) && DependsOnSet(config[i], selected, extra)
    ensures Risen(config, selected, extra0, config[i].name, i + 1)
  {
    var dep :| dep in config[i].dependencies && (dep in selected || dep in extra);
    if dep in selected || dep in extra0 {
      RisesAlone(config, selected, extra0, i);
    } else {
      RisesOn(config, selected, extra0, dep, i);
    }
  }

  lemma PassNext(config: seq<Service>, selected: set<string>, extra0: set<string>, extra: set<string>,
                 more: set<string>, i: nat)
    requires i < |config| && PassHolds(config, selected, extra0, extra, i)
    requires more ==
      if config[i].name !in selected && config[i].name !in extra && DependsOnSet(config[i], selected, extra)
      then extra + {config[i].name}
      else extra
    ensures PassHolds(config, selected, extra0, more, i + 1)
  {
    forall name
      ensures name in more <==> name in extra0 || (name !in selected && Risen(config, selected, extra0, name, i + 1))
    {
      if name in more && name !in extra0 {
        if name in extra {
          RisenGrows(config, selected, extra0, name, i);
        } else {
          ServiceRisen(config, selected, extra0, extra, i);
        }
      }
      if name !in selected && Risen(config, selected, extra0, name, i + 1) && name !in extra {
        RisenBefore(config, selected, extra0, name, i);
        if !DependsOnSet(config[i], selected, extra0) {
          var dep :| dep in config[i].dependencies && Risen(config, selected, extra0, dep, i);
          assert dep in selected || dep in extra;
        }
      }
    }
  }

  /** One pass adds the services to which such a chain rises, and only them. */
  method AddDirectDependents(config: seq<Service>, selected: set<string>, extra0: set<string>)
    returns (grew: bool, extra: set<string>)
    requires Sound(config, selected, extra0)
    ensures forall name :: name in extra <==>
              name in extra0 || (name !in selected &&
                exists chain :: RisesTo(config, selected, extra0, chain, name, |config|))
    ensures Sound(config, selected, extra) && extra0 <= extra
    ensures grew <==> extra != extra0
    ensures !grew ==> ClosedUpTo(config, selected, extra, |config|)
  {
    grew, extra := false, extra0;
    for i := 0 to |config|
      invariant Sound(config, selected, extra) && extra0 <= extra
      invariant PassHolds(config, selected, extra0, extra, i)
      invariant grew <==> extra != extra0
      invariant !grew ==> ClosedUpTo(config, selected, extra, i)
    {
      var service := config[i];
      ghost var before := extra;
      if service.name !in selected && service.name !in extra && DependsOnSet(service, selected, extra) {
        OneMoreReaches(config, selected, extra, i);
        extra, grew := extra + {service.name}, true;
      }
      PassNext(config, selected, extra0, before, extra, i);
    }
  }

  /** What is closed holds everything that reaches the selection. */
  lemma {:induction false} ClosedHoldsPaths(config: seq<Service>, selected: set<string>, extra: set<string>,
                                            path: seq<string>)
    requires ClosedUpTo(config, selected, extra, |config|) && IsPath(config, path) && path[|path| - 1] in selected
    ensures path[0] in selected || path[0] in extra
  {
    if |path| > 1 {
      var rest := path[1..];
      assert forall i :: 0 <= i < |rest| ==> rest[i] == path[i + 1];
      assert IsPath(config, rest);
      ClosedHoldsPaths(config, selected, extra, rest);
      assert DirectlyDepends(config, path[0], path[1]);
      var i :| 0 <= i < |config| && config[i].name == path[0] && path[1] in config[i].dependencies;
      assert path[1] in selected || path[1] in extra;
    }
  }

  /** The services outside the selection with a path of dependencies into it, and no others. */
  method RestartDependents(config: seq<Service>, names: seq<string>) returns (extra: set<string>)
    ensures var selected := set name | name in names;
            forall name :: name in extra <==> name !in selected && Reaches(config, name, selected)
  {
    if names == [] {
      return {};
    }
    var selected := set name | name in names;
    extra := {};
    var grew := true;
    while grew
      invariant Sound(config, selected, extra)
      invariant !grew ==> ClosedUpTo(config, selected, extra, |config|)
      decreases Names(config) - extra, grew
    {
      ghost var before := extra;
      grew, extra := AddDirectDependents(config, selected, extra);
      if grew {
        ghost var one :| one in extra && one !in before;
        assert one in Names(config) - before;
      }
    }
    forall name | name !in selected && Reaches(config, name, selected)
      ensures name in extra
    {
      var path :| LeadsTo(config, name, selected, path);
      ClosedHoldsPaths(config, selected, extra, path);
    }
  }

  /** Every set that is closed holds the result: it is the least. */
  lemma ReachingIsLeast(config: seq<Service>, selected: set<string>, closed: set<string>, name: string)
    requires ClosedUpTo(config, selected, closed, |config|) && name !in selected && Reaches(config, name, selected)
    ensures name in closed
  {
    var path :| LeadsTo(config, name, selected, path);
    ClosedHoldsPaths(config, selected, closed, path);
  }
}
