/** The walk over the span forest: what it draws, at which depth and in which order. */
module WaterfallWalk {
  import opened Basics
  import opened Waterfall

  // The walk, cut off below `fuel` levels.

  function Tree(spans: seq<Span>, span: Span, depth: nat, fuel: nat): seq<Ordered>
    decreases fuel, 0
  {
    if fuel == 0 then [] else [Ordered(span, depth)] + Trees(spans, Kids(spans, span.id), depth + 1, fuel - 1)
  }

  function Trees(spans: seq<Span>, list: seq<Span>, depth: nat, fuel: nat): seq<Ordered>
    decreases fuel, |list| + 1
  {
    if list == [] then [] else Tree(spans, list[0], depth, fuel) + Trees(spans, list[1..], depth, fuel)
  }

  /** All of it where the walk ends: then no chain is longer than the list of spans. */
  function Walked(spans: seq<Span>): seq<Ordered> {
    Trees(spans, Kids(spans, ""), 0, |spans|)
  }

  // Chains of parents.

  /** From a root down, each span drawn under the one before. Under an empty id the roots are drawn once more. */
  predicate RootChain(spans: seq<Span>, chain: seq<Span>) {
    && chain != []
    && (forall i :: 0 <= i < |chain| ==> chain[i] in spans)
    && ParentOf(spans, chain[0]) == ""
    && (forall i :: 0 <= i < |chain| - 1 ==> ParentOf(spans, chain[i + 1]) == chain[i].id)
  }

  function Last(chain: seq<Span>): Span
    requires chain != []
  {
    chain[|chain| - 1]
  }

  function Front(chain: seq<Span>): seq<Span>
    requires chain != []
  {
    chain[..|chain| - 1]
  }

  /** No span of the chain has the id of another one or the empty id. */
  predicate OwnIds(chain: seq<Span>) {
    && (forall i :: 0 <= i < |chain| ==> chain[i].id != "")
    && (forall i, j :: 0 <= i < j < |chain| ==> chain[i].id != chain[j].id)
  }

  /** What the code relies on: no way down from a root comes to an id again, nor to the empty id. */
  ghost predicate NoLoop(spans: seq<Span>) {
    forall chain :: RootChain(spans, chain) ==> OwnIds(chain)
  }

  lemma SameId(spans: seq<Span>, a: Span, b: Span)
    requires GoodIds(spans) && a in spans && b in spans && a.id == b.id
    ensures a == b && a.id != ""
  {
  }

  lemma FrontChain(spans: seq<Span>, chain: seq<Span>)
    requires GoodIds(spans) && RootChain(spans, chain) && |chain| > 1
    ensures RootChain(spans, Front(chain)) && ParentOf(spans, Last(chain)) == Last(Front(chain)).id != ""
  {
    assert chain[|chain| - 2 + 1] == Last(chain);
    assert chain[|chain| - 2] in spans;
  }

  /** Spans under one parent have the same chain above them. */
  lemma {:induction false} SameFront(spans: seq<Span>, c: seq<Span>, d: seq<Span>)
    requires GoodIds(spans) && RootChain(spans, c) && RootChain(spans, d)
    requires ParentOf(spans, Last(c)) == ParentOf(spans, Last(d))
    ensures Front(c) == Front(d)
  {
    if |c| == 1 {
      if |d| > 1 {
        FrontChain(spans, d);
      }
    } else if |d| == 1 {
      FrontChain(spans, c);
    } else {
      FrontChain(spans, c);
      FrontChain(spans, d);
      SameId(spans, Last(Front(c)), Last(Front(d)));
      SameFront(spans, Front(c), Front(d));
      assert Front(c) == Front(Front(c)) + [Last(Front(c))] && Front(d) == Front(Front(d)) + [Last(Front(d))];
    }
  }

  lemma ChainIsUnique(spans: seq<Span>, c: seq<Span>, d: seq<Span>)
    requires GoodIds(spans) && RootChain(spans, c) && RootChain(spans, d) && Last(c) == Last(d)
    ensures c == d
  {
    SameFront(spans, c, d);
    assert c == Front(c) + [Last(c)] && d == Front(d) + [Last(d)];
  }

  lemma PrefixChain(spans: seq<Span>, chain: seq<Span>, n: nat)
    requires RootChain(spans, chain) && 0 < n <= |chain|
    ensures RootChain(spans, chain[..n])
  {
  }

  lemma ChainIsDistinct(spans: seq<Span>, chain: seq<Span>, i: nat, j: nat)
    requires GoodIds(spans) && RootChain(spans, chain) && i < j < |chain|
    ensures chain[i] != chain[j]
  {
    if chain[i] == chain[j] {
      PrefixChain(spans, chain, i + 1);
      PrefixChain(spans, chain, j + 1);
      ChainIsUnique(spans, chain[..i + 1], chain[..j + 1]);
    }
  }

  function Elements(list: seq<Span>): set<Span> {
    set x | x in list
  }

  lemma ElementsSnoc(list: seq<Span>, x: Span)
    ensures Elements(list + [x]) == Elements(list) + {x}
  {
  }

  lemma {:induction false} DistinctCount(list: seq<Span>)
    ensures |Elements(list)| <= |list|
    ensures (forall i, j :: 0 <= i < j < |list| ==> list[i] != list[j]) ==> |Elements(list)| == |list|
  {
    if list != [] {
      var front, last := Front(list), Last(list);
      DistinctCount(front);
      assert list == front + [last];
      ElementsSnoc(front, last);
      if forall i, j :: 0 <= i < j < |list| ==> list[i] != list[j] {
        assert last !in front;
      }
    }
  }

  lemma {:induction false} SubsetCount(a: set<Span>, b: set<Span>)
    requires a <= b
    ensures |a| <= |b|
  {
    if x :| x in a {
      SubsetCount(a - {x}, b - {x});
    }
  }

  /** Where ids are not empty and differ there is no loop. */
  lemma GoodIdsHaveNoLoop(spans: seq<Span>)
    requires GoodIds(spans)
    ensures NoLoop(spans)
  {
    forall chain: seq<Span> | RootChain(spans, chain)
      ensures OwnIds(chain)
    {
      forall i, j | 0 <= i < j < |chain|
        ensures chain[i].id != chain[j].id
      {
        ChainIsDistinct(spans, chain, i, j);
      }
    }
  }

  /** A chain longer than the list of spans comes to a span again. */
  lemma ChainIsShort(spans: seq<Span>, chain: seq<Span>)
    requires RootChain(spans, chain) && OwnIds(chain)
    ensures |chain| <= |spans|
  {
    DistinctCount(chain);
    DistinctCount(spans);
    SubsetCount(Elements(chain), Elements(spans));
  }

  // The children.

  lemma {:induction false} GroupExactly(spans: seq<Span>, some: seq<Span>, id: string, x: Span)
    ensures x in Group(spans, some, id) <==> x in some && ParentOf(spans, x) == id
  {
    if some != [] {
      assert some == Front(some) + [Last(some)];
      GroupExactly(spans, Front(some), id, x);
    }
  }

  lemma {:induction false} GroupCounts(spans: seq<Span>, some: seq<Span>, id: string, x: Span)
    ensures multiset(Group(spans, some, id))[x] <= multiset(some)[x]
  {
    if some != [] {
      assert some == Front(some) + [Last(some)];
      GroupCounts(spans, Front(some), id, x);
    }
  }

  lemma KidsExactly(spans: seq<Span>, id: string, x: Span)
    ensures x in Kids(spans, id) <==> x in spans && ParentOf(spans, x) == id
  {
    SortIsStable(Group(spans, spans, id), 0);
    GroupExactly(spans, spans, id, x);
    assert x in multiset(Kids(spans, id)) <==> x in Kids(spans, id);
  }

  predicate Distinct(list: seq<Span>) {
    forall i, j :: 0 <= i < j < |list| ==> list[i] != list[j]
  }

  lemma TwiceCounts(list: seq<Span>, i: nat, j: nat)
    requires i < j < |list| && list[i] == list[j]
    ensures multiset(list)[list[j]] >= 2
  {
    assert list == list[..j] + ([list[j]] + list[j + 1..]);
    assert list[..j][i] == list[j];
    assert list[j] in multiset(list[..j]);
  }

  lemma CountOfDistinct(list: seq<Span>)
    requires forall x :: multiset(list)[x] <= 1
    ensures Distinct(list)
  {
    forall i, j | 0 <= i < j < |list|
      ensures list[i] != list[j]
    {
      if list[i] == list[j] {
        TwiceCounts(list, i, j);
      }
    }
  }

  lemma {:induction false} DistinctCounts(list: seq<Span>, x: Span)
    requires Distinct(list)
    ensures multiset(list)[x] <= 1
  {
    if list != [] {
      assert list == Front(list) + [Last(list)];
      DistinctCounts(Front(list), x);
      assert Last(list) !in Front(list);
      assert Last(list) !in multiset(Front(list));
    }
  }

  lemma KidsDistinct(spans: seq<Span>, id: string)
    requires GoodIds(spans)
    ensures Distinct(Kids(spans, id))
  {
    SortIsStable(Group(spans, spans, id), 0);
    forall x: Span
      ensures multiset(Kids(spans, id))[x] <= 1
    {
      assert Distinct(spans);
      DistinctCounts(spans, x);
      GroupCounts(spans, spans, id, x);
    }
    CountOfDistinct(Kids(spans, id));
  }

  // What the walk holds.

  /** `list` are spans that continue the chain. */
  predicate Continues(spans: seq<Span>, chain: seq<Span>, list: seq<Span>) {
    forall x :: x in list ==> RootChain(spans, chain + [x])
  }

  lemma KidsContinue(spans: seq<Span>, chain: seq<Span>)
    requires chain == [] || RootChain(spans, chain)
    ensures Continues(spans, chain, Kids(spans, if chain == [] then "" else Last(chain).id))
  {
    var id := if chain == [] then "" else Last(chain).id;
    forall x | x in Kids(spans, id)
      ensures RootChain(spans, chain + [x])
    {
      KidsExactly(spans, id, x);
    }
  }

  /** The chain goes on through one of `list`, for at most `fuel` more spans, and ends at the entry. */
  ghost predicate Reaches(spans: seq<Span>, chain: seq<Span>, list: seq<Span>, fuel: nat, e: Ordered, c: seq<Span>) {
    && RootChain(spans, c) && |chain| < |c| <= |chain| + fuel && chain == c[..|chain|] && c[|chain|] in list
    && e == Ordered(Last(c), |c| - 1)
  }

  ghost predicate Reached(spans: seq<Span>, chain: seq<Span>, list: seq<Span>, fuel: nat, e: Ordered) {
    exists c :: Reaches(spans, chain, list, fuel, e, c)
  }

  lemma {:induction false} TreesHold(spans: seq<Span>, chain: seq<Span>, list: seq<Span>, fuel: nat, e: Ordered)
    requires Continues(spans, chain, list)
    ensures e in Trees(spans, list, |chain|, fuel) <==> Reached(spans, chain, list, fuel, e)
    decreases fuel, |list| + 1
  {
    if list != [] {
      TreeHolds(spans, chain, list[0], fuel, e);
      TreesHold(spans, chain, list[1..], fuel, e);
      if c :| Reaches(spans, chain, [list[0]], fuel, e, c) {
        assert Reaches(spans, chain, list, fuel, e, c);
      }
      if c :| Reaches(spans, chain, list[1..], fuel, e, c) {
        assert Reaches(spans, chain, list, fuel, e, c);
      }
      if c :| Reaches(spans, chain, list, fuel, e, c) {
        assert Reaches(spans, chain, [list[0]], fuel, e, c) || Reaches(spans, chain, list[1..], fuel, e, c);
      }
    }
  }

  lemma Shallower(spans: seq<Span>, chain: seq<Span>, x: Span, kids: seq<Span>, fuel: nat, e: Ordered, c: seq<Span>)
    requires Reaches(spans, chain + [x], kids, fuel, e, c)
    ensures Reaches(spans, chain, [x], fuel + 1, e, c)
  {
    assert c[..|chain|] == (chain + [x])[..|chain|] == chain && c[|chain|] == (chain + [x])[|chain|];
  }

  lemma Deeper(spans: seq<Span>, chain: seq<Span>, x: Span, fuel: nat, e: Ordered, c: seq<Span>)
    requires Reaches(spans, chain, [x], fuel + 1, e, c)
    ensures c == chain + [x] || Reaches(spans, chain + [x], Kids(spans, x.id), fuel, e, c)
  {
    var longer := chain + [x];
    assert c[..|longer|] == longer;
    if |c| == |longer| {
      assert c == longer;
    } else {
      KidsExactly(spans, x.id, c[|longer|]);
    }
  }

  lemma {:induction false} TreeHolds(spans: seq<Span>, chain: seq<Span>, x: Span, fuel: nat, e: Ordered)
    requires RootChain(spans, chain + [x])
    ensures e in Tree(spans, x, |chain|, fuel) <==> Reached(spans, chain, [x], fuel, e)
    decreases fuel, 0
  {
    if fuel > 0 {
      var longer, kids, less: nat := chain + [x], Kids(spans, x.id), fuel - 1;
      KidsContinue(spans, longer);
      TreesHold(spans, longer, kids, less, e);
      if e == Ordered(x, |chain|) {
        assert Reaches(spans, chain, [x], fuel, e, longer);
      }
      if c :| Reaches(spans, longer, kids, less, e, c) {
        Shallower(spans, chain, x, kids, less, e, c);
      }
      if c :| Reaches(spans, chain, [x], fuel, e, c) {
        Deeper(spans, chain, x, less, e, c);
      }
    }
  }

  /** A span is drawn at depth d exactly when a chain of d + 1 spans leads from a root to it. */
  lemma WalkedExactly(spans: seq<Span>, e: Ordered)
    requires NoLoop(spans)
    ensures e in Walked(spans) <==> exists c :: RootChain(spans, c) && Last(c) == e.span && |c| == e.depth + 1
  {
    KidsContinue(spans, []);
    TreesHold(spans, [], Kids(spans, ""), |spans|, e);
    if c :| RootChain(spans, c) && Last(c) == e.span && |c| == e.depth + 1 {
      ChainIsShort(spans, c);
      KidsExactly(spans, "", c[0]);
      assert Reaches(spans, [], Kids(spans, ""), |spans|, e, c);
    }
  }

  // The walk itself.

  ghost predicate HoldsKids(kids: map<string, seq<Span>>, spans: seq<Span>) {
    forall id :: Find(kids, id).GetOr([]) == Kids(spans, id)
  }

  lemma FirstOfTrees(spans: seq<Span>, list: seq<Span>, i: nat, depth: nat, fuel: nat)
    requires i < |list|
    ensures Trees(spans, list[i..], depth, fuel) ==
            Tree(spans, list[i], depth, fuel) + Trees(spans, list[i + 1..], depth, fuel)
  {
    assert list[i..][1..] == list[i + 1..];
  }

  /** `chain` is the way from a root to the span. */
  method Visit(spans: seq<Span>, kids: map<string, seq<Span>>, span: Span, depth: nat, out0: seq<Ordered>,
               ghost chain: seq<Span>)
    returns (out: seq<Ordered>)
    requires NoLoop(spans) && HoldsKids(kids, spans)
    requires RootChain(spans, chain) && Last(chain) == span && depth == |chain| - 1
    ensures depth < |spans| && out == out0 + Tree(spans, span, depth, |spans| - depth)
    decreases |spans| - depth
  {
    ChainIsShort(spans, chain);
    ghost var less: nat := |spans| - depth - 1;
    out := out0 + [Ordered(span, depth)];
    var children := Find(kids, span.id).GetOr([]);
    KidsContinue(spans, chain);
    ghost var whole := out0 + Tree(spans, span, depth, less + 1);
    ConcatAssoc(out0, [Ordered(span, depth)], Trees(spans, children, depth + 1, less));
    assert children[0..] == children;
    for i := 0 to |children|
      invariant out + Trees(spans, children[i..], depth + 1, less) == whole
    {
      FirstOfTrees(spans, children, i, depth + 1, less);
      ConcatAssoc(out, Tree(spans, children[i], depth + 1, less), Trees(spans, children[i + 1..], depth + 1, less));
      assert children[i] in children;
      out := Visit(spans, kids, children[i], depth + 1, out, chain + [children[i]]);
    }
    assert out + [] == out;
  }

  method Walk(spans: seq<Span>) returns (out: seq<Ordered>)
    requires NoLoop(spans)
    ensures out == Walked(spans)
  {
    var kids := ChildrenOf(spans);
    out := [];
    var roots := Find(kids, "").GetOr([]);
    KidsContinue(spans, []);
    assert roots[0..] == roots;
    for i := 0 to |roots|
      invariant out + Trees(spans, roots[i..], 0, |spans|) == Walked(spans)
    {
      FirstOfTrees(spans, roots, i, 0, |spans|);
      ConcatAssoc(out, Tree(spans, roots[i], 0, |spans|), Trees(spans, roots[i + 1..], 0, |spans|));
      assert roots[i] in roots;
      assert [] + [roots[i]] == [roots[i]];
      out := Visit(spans, kids, roots[i], 0, out, [roots[i]]);
    }
    assert out + [] == out;
  }
}
