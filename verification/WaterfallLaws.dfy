/** The walk draws no span twice, every span after its parent with nothing shallower between, siblings in order. */
module WaterfallLaws {
  import opened Basics
  import opened Waterfall
  import opened WaterfallWalk

  // Each span under its parent.

  /** Between a span and its parent before it everything is deeper than the parent. */
  predicate UnderParent(spans: seq<Span>, out: seq<Ordered>, p: int, i: nat)
    requires i < |out|
  {
    && 0 <= p < i
    && out[p].span.id == ParentOf(spans, out[i].span) && out[p].depth + 1 == out[i].depth
    && forall m :: p < m < i ==> out[m].depth > out[p].depth
  }

  ghost predicate HasParentBefore(spans: seq<Span>, out: seq<Ordered>, i: nat)
    requires i < |out|
  {
    exists p :: UnderParent(spans, out, p, i)
  }

  /** Entries at depth `base` are drawn under `parent`, all others under an entry before them. */
  ghost predicate Preorder(spans: seq<Span>, out: seq<Ordered>, base: nat, parent: string) {
    forall i :: 0 <= i < |out| ==> Placed(spans, out, base, parent, i)
  }

  ghost predicate Placed(spans: seq<Span>, out: seq<Ordered>, base: nat, parent: string, i: nat)
    requires i < |out|
  {
    if out[i].depth == base then ParentOf(spans, out[i].span) == parent
    else out[i].depth > base && HasParentBefore(spans, out, i)
  }

  lemma ParentInFront(spans: seq<Span>, a: seq<Ordered>, b: seq<Ordered>, i: nat)
    requires i < |a| && HasParentBefore(spans, a, i)
    ensures HasParentBefore(spans, a + b, i)
  {
    var p :| UnderParent(spans, a, p, i);
    assert UnderParent(spans, a + b, p, i);
  }

  lemma Behind(spans: seq<Span>, a: seq<Ordered>, b: seq<Ordered>, out: seq<Ordered>, p: int, i: nat)
    requires out == a + b && i < |b| && UnderParent(spans, b, p, i)
    ensures UnderParent(spans, out, |a| + p, |a| + i)
  {
    var n := |a|;
    assert out[n + i] == b[i] && out[n + p] == b[p];
    forall m | n + p < m < n + i
      ensures out[m].depth > out[n + p].depth
    {
      assert out[m] == b[m - n];
    }
  }

  lemma ParentBehind(spans: seq<Span>, a: seq<Ordered>, b: seq<Ordered>, i: nat)
    requires i < |b| && HasParentBefore(spans, b, i)
    ensures HasParentBefore(spans, a + b, |a| + i)
  {
    var p :| UnderParent(spans, b, p, i);
    Behind(spans, a, b, a + b, p, i);
  }

  lemma PreorderBoth(spans: seq<Span>, a: seq<Ordered>, b: seq<Ordered>, base: nat, parent: string)
    requires Preorder(spans, a, base, parent) && Preorder(spans, b, base, parent)
    ensures Preorder(spans, a + b, base, parent)
  {
    var out := a + b;
    forall i | 0 <= i < |out|
      ensures Placed(spans, out, base, parent, i)
    {
      if i < |a| {
        assert out[i] == a[i] && Placed(spans, a, base, parent, i);
        if a[i].depth != base {
          ParentInFront(spans, a, b, i);
        }
      } else {
        var k := i - |a|;
        assert out[i] == b[k] && Placed(spans, b, base, parent, k);
        if b[k].depth != base {
          ParentBehind(spans, a, b, k);
        }
      }
    }
  }

  lemma PreorderUnder(spans: seq<Span>, x: Span, under: seq<Ordered>, base: nat)
    requires Preorder(spans, under, base + 1, x.id)
    ensures Preorder(spans, [Ordered(x, base)] + under, base, ParentOf(spans, x))
  {
    var top := [Ordered(x, base)];
    var out := top + under;
    forall i | 0 <= i < |out|
      ensures Placed(spans, out, base, ParentOf(spans, x), i)
    {
      if i > 0 {
        var k := i - 1;
        assert out[i] == under[k] && Placed(spans, under, base + 1, x.id, k);
        if under[k].depth == base + 1 {
          FirstIsParent(spans, x, under, base, k);
        } else {
          ParentBehind(spans, top, under, k);
        }
      }
    }
  }

  lemma FirstIsParent(spans: seq<Span>, x: Span, under: seq<Ordered>, base: nat, k: nat)
    requires Preorder(spans, under, base + 1, x.id) && k < |under| && under[k].depth == base + 1
    ensures HasParentBefore(spans, [Ordered(x, base)] + under, k + 1)
  {
    var out := [Ordered(x, base)] + under;
    assert Placed(spans, under, base + 1, x.id, k);
    forall m | 0 < m < k + 1
      ensures out[m].depth > base
    {
      assert out[m] == under[m - 1] && Placed(spans, under, base + 1, x.id, m - 1);
    }
    assert UnderParent(spans, out, 0, k + 1);
  }

  lemma {:induction false} TreesArePreorder(spans: seq<Span>, list: seq<Span>, depth: nat, fuel: nat, parent: string)
    requires forall x :: x in list ==> ParentOf(spans, x) == parent
    ensures Preorder(spans, Trees(spans, list, depth, fuel), depth, parent)
    decreases fuel, |list|
  {
    if list != [] {
      if fuel > 0 {
        var kids := Kids(spans, list[0].id);
        forall x | x in kids
          ensures ParentOf(spans, x) == list[0].id
        {
          KidsExactly(spans, list[0].id, x);
        }
        TreesArePreorder(spans, kids, depth + 1, fuel - 1, list[0].id);
        PreorderUnder(spans, list[0], Trees(spans, kids, depth + 1, fuel - 1), depth);
      }
      TreesArePreorder(spans, list[1..], depth, fuel, parent);
      PreorderBoth(spans, Tree(spans, list[0], depth, fuel), Trees(spans, list[1..], depth, fuel), depth, parent);
    }
  }

  /** Roots are drawn at depth 0, every other span below its parent. */
  lemma WalkedIsPreorder(spans: seq<Span>)
    ensures Preorder(spans, Walked(spans), 0, "")
  {
    forall x | x in Kids(spans, "")
      ensures ParentOf(spans, x) == ""
    {
      KidsExactly(spans, "", x);
    }
    TreesArePreorder(spans, Kids(spans, ""), 0, |spans|, "");
  }

  // Siblings in order.

  predicate ComesBefore(list: seq<Span>, a: Span, b: Span) {
    exists i, j :: 0 <= i < j < |list| && list[i] == a && list[j] == b
  }

  /** Of two spans under one parent the first comes first among its children. */
  predicate SiblingOrder(spans: seq<Span>, e: Ordered, f: Ordered) {
    var parent := ParentOf(spans, e.span);
    ParentOf(spans, f.span) == parent ==> ComesBefore(Kids(spans, parent), e.span, f.span)
  }

  predicate InOrder(spans: seq<Span>, out: seq<Ordered>) {
    forall i, j :: 0 <= i < j < |out| ==> SiblingOrder(spans, out[i], out[j])
  }

  lemma InOrderBoth(spans: seq<Span>, a: seq<Ordered>, b: seq<Ordered>)
    requires InOrder(spans, a) && InOrder(spans, b) && forall e, f :: e in a && f in b ==> SiblingOrder(spans, e, f)
    ensures InOrder(spans, a + b)
  {
    var out := a + b;
    forall i, j | 0 <= i < j < |out|
      ensures SiblingOrder(spans, out[i], out[j])
    {
      if j < |a| {
        assert out[i] == a[i] && out[j] == a[j];
      } else if i >= |a| {
        assert out[i] == b[i - |a|] && out[j] == b[j - |a|];
      } else {
        assert out[i] == a[i] && out[j] == b[j - |a|] && a[i] in a && b[j - |a|] in b;
      }
    }
  }

  function IdOf(chain: seq<Span>): string {
    if chain == [] then "" else Last(chain).id
  }

  lemma SameFrontAt(c: seq<Span>, d: seq<Span>, i: nat)
    requires i + 1 < |c| && d != [] && Front(c) == Front(d)
    ensures c[i] == d[i]
  {
    assert Front(c)[i] == c[i] && Front(d)[i] == d[i];
  }

  /** Spans below different children of one chain are siblings only if they are these children. */
  lemma AcrossTrees(spans: seq<Span>, chain: seq<Span>, k: nat, c: seq<Span>, d: seq<Span>)
    requires GoodIds(spans) && k < |Kids(spans, IdOf(chain))|
    requires RootChain(spans, c) && |c| > |chain| && c[..|chain|] == chain && c[|chain|] == Kids(spans, IdOf(chain))[k]
    requires RootChain(spans, d) && |d| > |chain| && d[..|chain|] == chain
    requires d[|chain|] in Kids(spans, IdOf(chain))[k + 1..]
    requires ParentOf(spans, Last(c)) == ParentOf(spans, Last(d))
    ensures ComesBefore(Kids(spans, IdOf(chain)), Last(c), Last(d)) && ParentOf(spans, Last(c)) == IdOf(chain)
  {
    var list := Kids(spans, IdOf(chain));
    SameFront(spans, c, d);
    KidsDistinct(spans, IdOf(chain));
    var l :| 0 <= l < |list[k + 1..]| && list[k + 1..][l] == d[|chain|];
    assert list[k + 1 + l] == d[|chain|];
    if |c| > |chain| + 1 {
      SameFrontAt(c, d, |chain|);
    }
    KidsExactly(spans, IdOf(chain), list[k]);
  }

  lemma RootIsNoSibling(spans: seq<Span>, longer: seq<Span>, fuel: nat, f: Ordered)
    requires GoodIds(spans) && RootChain(spans, longer)
    requires f in Trees(spans, Kids(spans, Last(longer).id), |longer|, fuel)
    ensures ParentOf(spans, f.span) != ParentOf(spans, Last(longer))
  {
    KidsContinue(spans, longer);
    TreesHold(spans, longer, Kids(spans, Last(longer).id), fuel, f);
    var c :| Reaches(spans, longer, Kids(spans, Last(longer).id), fuel, f, c);
    if ParentOf(spans, f.span) == ParentOf(spans, Last(longer)) {
      SameFront(spans, longer, c);
    }
  }

  lemma SuffixContinues(spans: seq<Span>, chain: seq<Span>, k: nat)
    requires GoodIds(spans) && (chain == [] || RootChain(spans, chain)) && k <= |Kids(spans, IdOf(chain))|
    ensures Continues(spans, chain, Kids(spans, IdOf(chain))[k..])
  {
    KidsContinue(spans, chain);
    assert forall x :: x in Kids(spans, IdOf(chain))[k..] ==> x in Kids(spans, IdOf(chain));
  }

  lemma AcrossEntries(spans: seq<Span>, chain: seq<Span>, k: nat, fuel: nat, e: Ordered, f: Ordered)
    requires GoodIds(spans) && (chain == [] || RootChain(spans, chain)) && k < |Kids(spans, IdOf(chain))|
    requires e in Tree(spans, Kids(spans, IdOf(chain))[k], |chain|, fuel)
    requires f in Trees(spans, Kids(spans, IdOf(chain))[k + 1..], |chain|, fuel)
    ensures SiblingOrder(spans, e, f)
  {
    var list := Kids(spans, IdOf(chain));
    KidsContinue(spans, chain);
    SuffixContinues(spans, chain, k + 1);
    TreeHolds(spans, chain, list[k], fuel, e);
    TreesHold(spans, chain, list[k + 1..], fuel, f);
    var c :| Reaches(spans, chain, [list[k]], fuel, e, c);
    var d :| Reaches(spans, chain, list[k + 1..], fuel, f, d);
    if ParentOf(spans, e.span) == ParentOf(spans, f.span) {
      AcrossTrees(spans, chain, k, c, d);
    }
  }

  lemma {:induction false} TreesInOrder(spans: seq<Span>, chain: seq<Span>, k: nat, fuel: nat)
    requires GoodIds(spans) && (chain == [] || RootChain(spans, chain)) && k <= |Kids(spans, IdOf(chain))|
    ensures InOrder(spans, Trees(spans, Kids(spans, IdOf(chain))[k..], |chain|, fuel))
    decreases fuel, |Kids(spans, IdOf(chain))| - k + 1
  {
    var list := Kids(spans, IdOf(chain));
    if k < |list| {
      var x := list[k];
      assert list[k..][1..] == list[k + 1..];
      KidsContinue(spans, chain);
      TreeInOrder(spans, chain, x, fuel);
      TreesInOrder(spans, chain, k + 1, fuel);
      var first, others := Tree(spans, x, |chain|, fuel), Trees(spans, list[k + 1..], |chain|, fuel);
      forall e, f | e in first && f in others
        ensures SiblingOrder(spans, e, f)
      {
        AcrossEntries(spans, chain, k, fuel, e, f);
      }
      InOrderBoth(spans, first, others);
    }
  }

  lemma {:induction false} TreeInOrder(spans: seq<Span>, chain: seq<Span>, x: Span, fuel: nat)
    requires GoodIds(spans) && RootChain(spans, chain + [x])
    ensures InOrder(spans, Tree(spans, x, |chain|, fuel))
    decreases fuel, 0
  {
    if fuel > 0 {
      var less: nat := fuel - 1;
      TreesInOrder(spans, chain + [x], 0, less);
      TreeFromUnder(spans, chain, x, less, Trees(spans, Kids(spans, x.id)[0..], |chain| + 1, less));
    }
  }

  lemma TreeFromUnder(spans: seq<Span>, chain: seq<Span>, x: Span, less: nat, under: seq<Ordered>)
    requires GoodIds(spans) && RootChain(spans, chain + [x])
    requires under == Trees(spans, Kids(spans, x.id)[0..], |chain| + 1, less) && InOrder(spans, under)
    ensures InOrder(spans, Tree(spans, x, |chain|, less + 1))
  {
    assert Kids(spans, x.id)[0..] == Kids(spans, x.id);
    forall f | f in under
      ensures ParentOf(spans, f.span) != ParentOf(spans, x)
    {
      RootIsNoSibling(spans, chain + [x], less, f);
    }
    TopThenUnder(spans, Ordered(x, |chain|), under);
  }

  lemma TopThenUnder(spans: seq<Span>, top: Ordered, under: seq<Ordered>)
    requires InOrder(spans, under) && forall f :: f in under ==> ParentOf(spans, f.span) != ParentOf(spans, top.span)
    ensures InOrder(spans, [top] + under)
  {
    InOrderBoth(spans, [top], under);
  }

  /** Of two spans under one parent the one that comes first among its children is drawn first. */
  lemma SiblingsInOrder(spans: seq<Span>)
    requires GoodIds(spans)
    ensures InOrder(spans, Walked(spans))
  {
    TreesInOrder(spans, [], 0, |spans|);
    assert Kids(spans, "")[0..] == Kids(spans, "");
  }

  /** So they are drawn by their start. */
  lemma SiblingsByStart(spans: seq<Span>, i: nat, j: nat)
    requires GoodIds(spans) && i < j < |Walked(spans)|
    requires ParentOf(spans, Walked(spans)[i].span) == ParentOf(spans, Walked(spans)[j].span)
    ensures Begin(Walked(spans)[i].span) <= Begin(Walked(spans)[j].span)
  {
    SiblingsInOrder(spans);
    assert SiblingOrder(spans, Walked(spans)[i], Walked(spans)[j]);
    SortIsStable(Group(spans, spans, ParentOf(spans, Walked(spans)[i].span)), 0);
  }

  /** No span is drawn twice. */
  lemma NoSpanTwice(spans: seq<Span>, i: nat, j: nat)
    requires GoodIds(spans) && i < j < |Walked(spans)|
    ensures Walked(spans)[i].span != Walked(spans)[j].span
  {
    SiblingsInOrder(spans);
    assert SiblingOrder(spans, Walked(spans)[i], Walked(spans)[j]);
    KidsDistinct(spans, ParentOf(spans, Walked(spans)[i].span));
  }
}
