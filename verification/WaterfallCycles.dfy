/** The spans that the walk does not draw: those on or under a cycle of parents. */
module WaterfallCycles {
  import opened Waterfall
  import opened WaterfallWalk

  /** From a span to its parent, and on. */
  predicate Upward(spans: seq<Span>, path: seq<Span>) {
    && path != []
    && (forall i :: 0 <= i < |path| ==> path[i] in spans)
    && forall i :: 0 <= i < |path| - 1 ==> ParentOf(spans, path[i]) == path[i + 1].id
  }

  ghost predicate MeetsCycle(spans: seq<Span>, span: Span, path: seq<Span>) {
    Upward(spans, path) && path[0] == span && !Distinct(path)
  }

  ghost predicate HasRoot(spans: seq<Span>, span: Span) {
    exists c :: RootChain(spans, c) && Last(c) == span
  }

  lemma {:induction false} UpwardFollowsChain(spans: seq<Span>, path: seq<Span>, c: seq<Span>)
    requires GoodIds(spans) && Upward(spans, path) && RootChain(spans, c) && Last(c) == path[0]
    ensures |path| <= |c| && forall k :: 0 <= k < |path| ==> path[k] == c[|c| - 1 - k]
    decreases |path|
  {
    if |path| > 1 {
      var rest := path[1..];
      assert path[1] in spans && path[0 + 1].id == ParentOf(spans, path[0]);
      SameId(spans, path[1], path[1]);
      FrontChain(spans, c);
      SameId(spans, Last(Front(c)), path[1]);
      assert forall i :: 0 <= i < |rest| ==> rest[i] == path[i + 1];
      UpwardFollowsChain(spans, rest, Front(c));
    }
  }

  lemma RootHasRoot(spans: seq<Span>, span: Span)
    requires span in spans && ParentOf(spans, span) == ""
    ensures HasRoot(spans, span)
  {
    assert RootChain(spans, [span]) && Last([span]) == span;
  }

  lemma ChildHasRoot(spans: seq<Span>, span: Span, parent: Span)
    requires span in spans && HasRoot(spans, parent) && ParentOf(spans, span) == parent.id
    ensures HasRoot(spans, span)
  {
    var c :| RootChain(spans, c) && Last(c) == parent;
    assert RootChain(spans, c + [span]) && Last(c + [span]) == span;
  }

  lemma ParentSpan(spans: seq<Span>, span: Span) returns (parent: Span)
    requires GoodIds(spans) && span in spans && !HasRoot(spans, span)
    ensures parent in spans && ParentOf(spans, span) == parent.id && !HasRoot(spans, parent)
  {
    if ParentOf(spans, span) == "" {
      RootHasRoot(spans, span);
    }
    var i :| 0 <= i < |spans| && spans[i].id == span.parent;
    parent := spans[i];
    if HasRoot(spans, parent) {
      ChildHasRoot(spans, span, parent);
    }
  }

  lemma {:induction false} ClimbOn(spans: seq<Span>, span: Span, n: nat) returns (path: seq<Span>)
    requires GoodIds(spans) && span in spans && !HasRoot(spans, span)
    ensures |path| == n + 1 && Upward(spans, path) && path[0] == span
    decreases n
  {
    if n == 0 {
      path := [span];
    } else {
      var parent := ParentSpan(spans, span);
      var rest := ClimbOn(spans, parent, n - 1);
      path := [span] + rest;
      assert forall i :: 0 < i < |path| ==> path[i] == rest[i - 1];
    }
  }

  /** A span is left out exactly when its parents lead into a cycle. */
  lemma OmittedExactly(spans: seq<Span>, span: Span)
    requires GoodIds(spans) && span in spans
    ensures (forall e :: e in Walked(spans) ==> e.span != span) <==> exists path :: MeetsCycle(spans, span, path)
  {
    assert (exists e :: e in Walked(spans) && e.span == span) <==> HasRoot(spans, span) by {
      GoodIdsHaveNoLoop(spans);
      DrawnHasRoot(spans, span);
    }
    if HasRoot(spans, span) {
      var c :| RootChain(spans, c) && Last(c) == span;
      if path :| MeetsCycle(spans, span, path) {
        UpwardFollowsChain(spans, path, c);
        var i, j :| 0 <= i < j < |path| && path[i] == path[j];
        ChainIsDistinct(spans, c, |c| - 1 - j, |c| - 1 - i);
      }
    } else {
      var path := ClimbOn(spans, span, |spans|);
      DistinctCount(path);
      DistinctCount(spans);
      SubsetCount(Elements(path), Elements(spans));
      assert MeetsCycle(spans, span, path);
    }
  }

  /** A span is drawn exactly when a chain leads from a root to it. */
  lemma DrawnHasRoot(spans: seq<Span>, span: Span)
    requires NoLoop(spans)
    ensures (exists e :: e in Walked(spans) && e.span == span) <==> HasRoot(spans, span)
  {
    if e :| e in Walked(spans) && e.span == span {
      WalkedExactly(spans, e);
    }
    if c :| RootChain(spans, c) && Last(c) == span {
      WalkedExactly(spans, Ordered(span, |c| - 1));
    }
  }

  /** Two spans of one id, the second drawn under the first. */
  const TWINS := [Span("a", "", 0, 0), Span("a", "a", 1, 1)]

  lemma TwinKids()
    ensures Kids(TWINS, "") == [TWINS[0]] && Kids(TWINS, "a") == [TWINS[1]]
  {
    var first := TWINS[..1];
    assert first == [TWINS[0]] && first[..0] == [];
    assert TWINS[0].id == "a" && HasId(TWINS, "a");
    assert ParentOf(TWINS, TWINS[0]) == "" && ParentOf(TWINS, TWINS[1]) == "a";
    assert Group(TWINS, first, "") == [TWINS[0]] && Group(TWINS, first, "a") == [];
    assert Group(TWINS, TWINS, "") == [TWINS[0]] && Group(TWINS, TWINS, "a") == [TWINS[1]];
    SortOne(TWINS[0]);
    SortOne(TWINS[1]);
  }

  lemma SortOne(x: Span)
    ensures Sort([x]) == [x]
  {
    assert [x][..0] == [];
  }

  lemma {:induction false} OwnChildNeverEnds(spans: seq<Span>, x: Span, depth: nat, fuel: nat)
    requires Kids(spans, x.id) == [x]
    ensures |Tree(spans, x, depth, fuel)| == fuel
    decreases fuel
  {
    if fuel > 0 {
      OwnChildNeverEnds(spans, x, depth + 1, fuel - 1);
      assert [x][1..] == [];
      assert Trees(spans, [], depth + 1, fuel - 1) == [];
    }
  }

  /**
   With a shared id the recursion need not end: cut off below any number of levels,
   the walk still fills all of them.
   */
  lemma SharedIdNeverEnds(fuel: nat)
    ensures TWINS[0] in Kids(TWINS, "") && TWINS[0].id == TWINS[1].id && |Tree(TWINS, TWINS[1], 1, fuel)| == fuel
  {
    TwinKids();
    OwnChildNeverEnds(TWINS, TWINS[1], 1, fuel);
  }
}
