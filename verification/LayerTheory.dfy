/** Layers of a dependency graph: what stands where, and what cannot be placed. */
module LayerTheory {
  import opened Services

  /** `to` depends on `from`; a service does not count as its own dependency. */
  predicate Edge(services: seq<Service>, from: string, to: string) {
    && from in Names(services) && from != to
    && exists i :: 0 <= i < |services| && services[i].name == to && from in services[i].dependencies
  }

  /** What can be placed once `placed` are: all their dependencies are among them. */
  ghost function Ready(services: seq<Service>, placed: set<string>): set<string> {
    set name |
      name in Names(services) && name !in placed && forall from :: Edge(services, from, name) ==> from in placed
  }

  /** The levels from `placed` on, as sets. */
  ghost function Levels(services: seq<Service>, placed: set<string>): seq<set<string>>
    decreases Names(services) - placed
  {
    var ready := Ready(services, placed);
    if ready == {} then []
    else
      assert exists name :: name in ready;
      [ready] + Levels(services, placed + ready)
  }

  ghost function Union(levels: seq<set<string>>): set<string> {
    if levels == [] then {} else levels[0] + Union(levels[1..])
  }

  /** What the levels do not place. */
  ghost function Leftover(services: seq<Service>): set<string> {
    Names(services) - Union(Levels(services, {}))
  }

  /** A walk from a dependency to those that depend on it. */
  predicate IsChain(services: seq<Service>, path: seq<string>) {
    path != [] && forall i :: 0 <= i < |path| - 1 ==> Edge(services, path[i], path[i + 1])
  }

  lemma {:induction false} LevelsPlace(services: seq<Service>, placed: set<string>)
    ensures Ready(services, placed + Union(Levels(services, placed))) == {}
    ensures Union(Levels(services, placed)) <= Names(services) - placed
    decreases Names(services) - placed
  {
    var ready := Ready(services, placed);
    if ready == {} {
      assert placed + {} == placed;
    } else {
      assert exists name :: name in ready;
      LevelsPlace(services, placed + ready);
      var levels := Levels(services, placed);
      assert levels[1..] == Levels(services, placed + ready);
      assert placed + Union(levels) == (placed + ready) + Union(levels[1..]);
    }
  }

  /** The services of a level are placed nowhere else, after all they depend on, and right after one of them. */
  lemma {:induction false} LevelIsRight(services: seq<Service>, placed: set<string>, k: nat, name: string)
    requires k < |Levels(services, placed)| && name in Levels(services, placed)[k]
    ensures name in Names(services) && name !in placed && name !in Union(Levels(services, placed)[..k])
    ensures forall from :: Edge(services, from, name) ==> from in placed + Union(Levels(services, placed)[..k])
    ensures k > 0 ==> exists from :: Edge(services, from, name) && from in Levels(services, placed)[k - 1]
    decreases k
  {
    var ready, levels := Ready(services, placed), Levels(services, placed);
    if k > 0 {
      var more := Levels(services, placed + ready);
      assert levels[1..] == more && levels[k] == more[k - 1];
      LevelIsRight(services, placed + ready, k - 1, name);
      assert levels[..k][1..] == more[..k - 1];
      if k == 1 {
        assert name !in ready;
        var from :| Edge(services, from, name) && from !in placed;
        assert from in placed + ready + Union(more[..0]);
      }
    }
  }

  lemma {:induction false} InSomeLevel(levels: seq<set<string>>, name: string) returns (k: nat)
    requires name in Union(levels)
    ensures k < |levels| && name in levels[k]
  {
    if name in levels[0] {
      k := 0;
    } else {
      k := InSomeLevel(levels[1..], name);
      k := k + 1;
    }
  }

  lemma {:induction false} InUnion(levels: seq<set<string>>, k: nat, name: string)
    requires k < |levels| && name in levels[k]
    ensures name in Union(levels)
  {
    if k > 0 {
      InUnion(levels[1..], k - 1, name);
    }
  }

  /** Every service is at one level only. */
  lemma OneLevel(services: seq<Service>, j: nat, k: nat, name: string)
    requires j < |Levels(services, {})| && k < |Levels(services, {})|
    requires name in Levels(services, {})[j] && name in Levels(services, {})[k]
    ensures j == k
  {
    var levels := Levels(services, {});
    LevelIsRight(services, {}, k, name);
    LevelIsRight(services, {}, j, name);
    if j < k {
      InUnion(levels[..k], j, name);
    } else if k < j {
      InUnion(levels[..j], k, name);
    }
  }

  /** An edge goes to a strictly later level. */
  lemma EdgeGoesLater(services: seq<Service>, from: string, to: string, k: nat) returns (j: nat)
    requires Edge(services, from, to) && k < |Levels(services, {})| && to in Levels(services, {})[k]
    ensures j < k && from in Levels(services, {})[j]
  {
    LevelIsRight(services, {}, k, to);
    assert from in {} + Union(Levels(services, {})[..k]);
    j := InSomeLevel(Levels(services, {})[..k], from);
  }

  /** No chain of dependencies that ends at a service of level k has more than k edges. */
  lemma {:induction false} ChainsAreShort(services: seq<Service>, path: seq<string>, k: nat)
    requires IsChain(services, path) && k < |Levels(services, {})| && path[|path| - 1] in Levels(services, {})[k]
    ensures |path| - 1 <= k
  {
    if |path| > 1 {
      var front := path[..|path| - 1];
      assert Edge(services, path[|path| - 2], path[|path| - 2 + 1]);
      var j := EdgeGoesLater(services, path[|path| - 2], path[|path| - 1], k);
      assert IsChain(services, front);
      ChainsAreShort(services, front, j);
    }
  }

  /** A service of level k ends a chain of exactly k edges. */
  lemma {:induction false} LongestChain(services: seq<Service>, k: nat, name: string) returns (path: seq<string>)
    requires k < |Levels(services, {})| && name in Levels(services, {})[k]
    ensures |path| == k + 1 && IsChain(services, path) && path[k] == name
    decreases k
  {
    if k == 0 {
      path := [name];
    } else {
      LevelIsRight(services, {}, k, name);
      var from :| Edge(services, from, name) && from in Levels(services, {})[k - 1];
      var front := LongestChain(services, k - 1, from);
      path := front + [name];
      Lengthened(services, front, name);
    }
  }

  lemma Lengthened(services: seq<Service>, path: seq<string>, name: string)
    requires IsChain(services, path) && Edge(services, path[|path| - 1], name)
    ensures IsChain(services, path + [name])
  {
    var longer := path + [name];
    forall i | 0 <= i < |longer| - 1
      ensures Edge(services, longer[i], longer[i + 1])
    {
      if i < |path| - 1 {
        assert Edge(services, path[i], path[i + 1]);
      }
    }
  }

  // What is left over.

  /** A chain that comes back to its first service on the way to `name`. */
  ghost predicate FromCycle(services: seq<Service>, path: seq<string>, name: string) {
    && IsChain(services, path) && path[|path| - 1] == name
    && exists i :: 0 < i < |path| && path[i] == path[0]
  }

  lemma {:induction false} ChainIsPlaced(services: seq<Service>, path: seq<string>, k: nat, i: nat) returns (j: nat)
    requires IsChain(services, path) && k < |Levels(services, {})| && path[|path| - 1] in Levels(services, {})[k]
    requires i < |path|
    ensures j < |Levels(services, {})| && path[i] in Levels(services, {})[j] && j + (|path| - 1 - i) <= k
    decreases |path| - i
  {
    if i == |path| - 1 {
      j := k;
    } else {
      var later := ChainIsPlaced(services, path, k, i + 1);
      assert Edge(services, path[i], path[i + 1]);
      j := EdgeGoesLater(services, path[i], path[i + 1], later);
    }
  }

  lemma CyclesAreLeftOver(services: seq<Service>, path: seq<string>, name: string)
    requires FromCycle(services, path, name) && name in Names(services)
    ensures name in Leftover(services)
  {
    if name !in Leftover(services) {
      var k := InSomeLevel(Levels(services, {}), name);
      var i :| 0 < i < |path| && path[i] == path[0];
      var cycle := path[..i + 1];
      assert IsChain(services, cycle);
      var j := ChainIsPlaced(services, path, k, i);
      var first := ChainIsPlaced(services, cycle, j, 0);
      OneLevel(services, first, j, path[0]);
      assert false;
    }
  }

  /** A left-over service depends on a left-over service. */
  lemma LeftOverBefore(services: seq<Service>, name: string) returns (from: string)
    requires name in Leftover(services)
    ensures Edge(services, from, name) && from in Leftover(services)
  {
    LevelsPlace(services, {});
    var placed := {} + Union(Levels(services, {}));
    assert name !in Ready(services, placed);
    from :| Edge(services, from, name) && from !in placed;
  }

  /** Walking back from a left-over service never ends. */
  lemma {:induction false} WalkBack(services: seq<Service>, name: string, n: nat) returns (path: seq<string>)
    requires name in Leftover(services)
    ensures |path| == n + 1 && IsChain(services, path) && path[n] == name
    ensures forall i :: 0 <= i <= n ==> path[i] in Leftover(services)
    decreases n
  {
    if n == 0 {
      path := [name];
    } else {
      var from := LeftOverBefore(services, name);
      var front := WalkBack(services, from, n - 1);
      Lengthened(services, front, name);
      path := front + [name];
    }
  }

  /** A list longer than the set its elements come from repeats one. */
  lemma {:induction false} Pigeonhole(list: seq<string>, holes: set<string>) returns (i: nat, j: nat)
    requires |list| > |holes| && forall k :: 0 <= k < |list| ==> list[k] in holes
    ensures i < j < |list| && list[i] == list[j]
    decreases |list|
  {
    var n := |list| - 1;
    if list[n] in list[..n] {
      i :| 0 <= i < n && list[i] == list[n];
      j := n;
    } else {
      i, j := Pigeonhole(list[..n], holes - {list[n]});
    }
  }

  lemma SuffixIsChain(services: seq<Service>, path: seq<string>, i: nat)
    requires IsChain(services, path) && i < |path|
    ensures IsChain(services, path[i..])
  {
    forall k | 0 <= k < |path[i..]| - 1
      ensures Edge(services, path[i..][k], path[i..][k + 1])
    {
      assert Edge(services, path[i + k], path[i + k + 1]);
    }
  }

  lemma LeftOverHasCycle(services: seq<Service>, name: string) returns (path: seq<string>)
    requires name in Leftover(services)
    ensures FromCycle(services, path, name)
  {
    var walk := WalkBack(services, name, |Names(services)|);
    var i, j := Pigeonhole(walk, Names(services));
    path := walk[i..];
    SuffixIsChain(services, walk, i);
    assert path[j - i] == path[0];
  }

  /** Left over are exactly the services on a cycle or downstream of one. */
  lemma LeftOverExactly(services: seq<Service>, name: string)
    requires name in Names(services)
    ensures name in Leftover(services) <==> exists path :: FromCycle(services, path, name)
  {
    if name in Leftover(services) {
      var path := LeftOverHasCycle(services, name);
    }
    if path :| FromCycle(services, path, name) {
      CyclesAreLeftOver(services, path, name);
    }
  }
}
