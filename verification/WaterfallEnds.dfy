/** Whether the recursion of the walk ends: exactly when no way down from a root comes to an id again. */
module WaterfallEnds {
  import opened Waterfall
  import opened WaterfallWalk

  /** The walk, cut off below `fuel` levels. */
  function Cut(spans: seq<Span>, fuel: nat): seq<Ordered> {
    Trees(spans, Kids(spans, ""), 0, fuel)
  }

  ghost predicate SettledAt(spans: seq<Span>, n: nat) {
    forall m: nat :: m >= n ==> Cut(spans, m) == Cut(spans, n)
  }

  /** From some number of levels on nothing more is drawn. */
  ghost predicate Ends(spans: seq<Span>) {
    exists n: nat :: SettledAt(spans, n)
  }

  // Without a loop everything is drawn above level |spans|.

  lemma TreeByKids(spans: seq<Span>, x: Span, depth: nat, f: nat, g: nat)
    requires f > 0 && g > 0
    requires Trees(spans, Kids(spans, x.id), depth + 1, f - 1) == Trees(spans, Kids(spans, x.id), depth + 1, g - 1)
    ensures Tree(spans, x, depth, f) == Tree(spans, x, depth, g)
  {
  }

  lemma {:induction false} EnoughForTree(spans: seq<Span>, chain: seq<Span>, x: Span, f: nat, g: nat)
    requires NoLoop(spans) && RootChain(spans, chain + [x]) && |chain| + f >= |spans| && |chain| + g >= |spans|
    ensures Tree(spans, x, |chain|, f) == Tree(spans, x, |chain|, g)
    decreases f, 0
  {
    var longer := chain + [x];
    ChainIsShort(spans, longer);
    KidsContinue(spans, longer);
    EnoughLevels(spans, longer, Kids(spans, x.id), f - 1, g - 1);
    TreeByKids(spans, x, |chain|, f, g);
  }

  lemma {:induction false} EnoughLevels(spans: seq<Span>, chain: seq<Span>, list: seq<Span>, f: nat, g: nat)
    requires NoLoop(spans) && Continues(spans, chain, list) && |chain| + f >= |spans| && |chain| + g >= |spans|
    ensures Trees(spans, list, |chain|, f) == Trees(spans, list, |chain|, g)
    decreases f, |list| + 1
  {
    if list != [] {
      assert list[0] in list;
      EnoughForTree(spans, chain, list[0], f, g);
      EnoughLevels(spans, chain, list[1..], f, g);
    }
  }

  lemma EnoughFromSpans(spans: seq<Span>, m: nat)
    requires NoLoop(spans) && m >= |spans|
    ensures Cut(spans, m) == Walked(spans)
  {
    KidsContinue(spans, []);
    EnoughLevels(spans, [], Kids(spans, ""), m, |spans|);
  }

  // With a loop there are chains of every length.

  /** The span at `k` is drawn once more under the last one. */
  predicate Loops(spans: seq<Span>, chain: seq<Span>, k: nat) {
    RootChain(spans, chain) && k < |chain| && ParentOf(spans, chain[k]) == Last(chain).id
  }

  lemma LoopOf(spans: seq<Span>, chain: seq<Span>) returns (loop: seq<Span>, k: nat)
    requires RootChain(spans, chain) && !OwnIds(chain)
    ensures Loops(spans, loop, k)
  {
    if i :| 0 <= i < |chain| && chain[i].id == "" {
      loop, k := chain[..i + 1], 0;
    } else {
      var i, j :| 0 <= i < j < |chain| && chain[i].id == chain[j].id;
      loop, k := chain[..j + 1], i + 1;
    }
    PrefixChain(spans, chain, |loop|);
  }

  lemma OnceMore(spans: seq<Span>, chain: seq<Span>, k: nat)
    requires Loops(spans, chain, k)
    ensures Loops(spans, chain + chain[k..], k)
  {
    var more := chain + chain[k..];
    forall i | 0 <= i < |more| - 1
      ensures ParentOf(spans, more[i + 1]) == more[i].id
    {
      if i >= |chain| {
        var m := k + (i - |chain|);
        assert more[i] == chain[m] && more[i + 1] == chain[m + 1];
      }
    }
    assert Last(more) == Last(chain);
  }

  lemma {:induction false} AsLongAs(spans: seq<Span>, chain: seq<Span>, k: nat, n: nat) returns (longer: seq<Span>)
    requires Loops(spans, chain, k)
    ensures RootChain(spans, longer) && |longer| > n
    decreases n - |chain|
  {
    if |chain| > n {
      longer := chain;
    } else {
      OnceMore(spans, chain, k);
      longer := AsLongAs(spans, chain + chain[k..], k, n);
    }
  }

  lemma DrawnAtLevel(spans: seq<Span>, chain: seq<Span>, n: nat)
    requires RootChain(spans, chain) && |chain| == n + 1
    ensures Ordered(Last(chain), n) in Cut(spans, n + 1) && Ordered(Last(chain), n) !in Cut(spans, n)
  {
    var e, roots := Ordered(Last(chain), n), Kids(spans, "");
    KidsContinue(spans, []);
    KidsExactly(spans, "", chain[0]);
    TreesHold(spans, [], roots, n + 1, e);
    TreesHold(spans, [], roots, n, e);
    assert Reaches(spans, [], roots, n + 1, e, chain);
  }

  lemma LoopFillsLevel(spans: seq<Span>, n: nat)
    requires !NoLoop(spans)
    ensures Cut(spans, n + 1) != Cut(spans, n)
  {
    var chain :| RootChain(spans, chain) && !OwnIds(chain);
    var loop, k := LoopOf(spans, chain);
    var longer := AsLongAs(spans, loop, k, n);
    PrefixChain(spans, longer, n + 1);
    DrawnAtLevel(spans, longer[..n + 1], n);
  }

  /**
   The recursion ends exactly when no chain down from a root meets an id twice or the empty id.
   One level more than there are spans tells.
   */
  lemma EndsExactly(spans: seq<Span>)
    ensures Ends(spans) <==> NoLoop(spans)
    ensures NoLoop(spans) <==> Cut(spans, |spans| + 1) == Cut(spans, |spans|)
    ensures NoLoop(spans) ==> forall m: nat :: m >= |spans| ==> Cut(spans, m) == Walked(spans)
  {
    if NoLoop(spans) {
      forall m: nat | m >= |spans|
        ensures Cut(spans, m) == Walked(spans)
      {
        EnoughFromSpans(spans, m);
      }
      Settles(spans, |spans|, Walked(spans));
    } else {
      LoopFillsLevel(spans, |spans|);
      NeverSettles(spans);
    }
  }

  lemma Settles(spans: seq<Span>, n: nat, all: seq<Ordered>)
    requires forall m: nat :: m >= n ==> Cut(spans, m) == all
    ensures Ends(spans)
  {
    assert SettledAt(spans, n);
  }

  lemma NeverSettles(spans: seq<Span>)
    requires !NoLoop(spans)
    ensures !Ends(spans)
  {
    if Ends(spans) {
      var n: nat :| SettledAt(spans, n);
      LoopFillsLevel(spans, n);
    }
  }

  lemma FirstLink(spans: seq<Span>, chain: seq<Span>)
    requires RootChain(spans, chain) && |chain| > 1
    ensures chain[0] in spans && chain[1] in spans && ParentOf(spans, chain[1]) == chain[0].id
  {
    assert chain[0 + 1] == chain[1];
  }

  lemma RootsOnly(spans: seq<Span>, chain: seq<Span>)
    requires RootChain(spans, chain) && forall x :: x in spans ==> x.id != "" && x.parent == ""
    ensures OwnIds(chain)
  {
    if |chain| > 1 {
      FirstLink(spans, chain);
    }
  }

  /** A trace may hold two spans of one id and still be walked to its end. */
  lemma SharedIdMayEnd(a: Span, b: Span)
    requires a.id == b.id != "" && a.parent == b.parent == ""
    ensures Ends([a, b]) && !GoodIds([a, b])
  {
    var spans := [a, b];
    forall chain: seq<Span> | RootChain(spans, chain)
      ensures OwnIds(chain)
    {
      RootsOnly(spans, chain);
    }
    EndsExactly(spans);
    assert spans[0].id == spans[1].id;
  }
}
