/** The order in which the spans of a trace are drawn: each under its parent, siblings by their start. */
module Waterfall {
  import opened Basics

  /** `parent` is empty for a span without one. */
  datatype Span = Span(id: string, parent: string, start: int, end: int)

  datatype Ordered = Ordered(span: Span, depth: nat)

  function Begin(span: Span): int {
    var end := if span.end == 0 then span.start else span.end;
    if span.start < end then span.start else end
  }

  /** A span begins at the earlier of its ends; an end of zero stands for the start. */
  lemma BeginExactly(span: Span, t: int)
    ensures t == Begin(span) <==>
      (t == span.start || (t == span.end != 0)) && t <= span.start && (span.end != 0 ==> t <= span.end)
  {
  }

  predicate HasId(spans: seq<Span>, id: string) {
    exists i :: 0 <= i < |spans| && spans[i].id == id
  }

  /** Span ids are not empty and differ. */
  predicate GoodIds(spans: seq<Span>) {
    && (forall i :: 0 <= i < |spans| ==> spans[i].id != "")
    && (forall i, j :: 0 <= i < j < |spans| ==> spans[i].id != spans[j].id)
  }

  /** The parent under which a span is drawn; a parent that is not in the trace does not count. */
  function ParentOf(spans: seq<Span>, span: Span): string {
    if span.parent != "" && HasId(spans, span.parent) then span.parent else ""
  }

  // Sorting by start.

  function Insert(sorted: seq<Span>, x: Span): seq<Span> {
    if sorted == [] then [x]
    else
      var m := |sorted| - 1;
      if Begin(sorted[m]) <= Begin(x) then sorted + [x] else Insert(sorted[..m], x) + [sorted[m]]
  }

  /** list.sort by start: the order of spans that start together is kept. */
  function Sort(list: seq<Span>): seq<Span> {
    if list == [] then [] else Insert(Sort(list[..|list| - 1]), list[|list| - 1])
  }

  predicate ByStart(list: seq<Span>) {
    forall i, j :: 0 <= i < j < |list| ==> Begin(list[i]) <= Begin(list[j])
  }

  function StartingAt(list: seq<Span>, t: int): seq<Span> {
    if list == [] then []
    else
      var m := |list| - 1;
      StartingAt(list[..m], t) + if Begin(list[m]) == t then [list[m]] else []
  }

  lemma StartingSnoc(list: seq<Span>, x: Span, t: int)
    ensures StartingAt(list + [x], t) == StartingAt(list, t) + if Begin(x) == t then [x] else []
  {
    assert (list + [x])[..|list|] == list;
  }

  lemma {:induction false} InsertKeeps(sorted: seq<Span>, x: Span)
    ensures multiset(Insert(sorted, x)) == multiset(sorted) + multiset{x}
  {
    if sorted != [] {
      var m := |sorted| - 1;
      assert sorted == sorted[..m] + [sorted[m]];
      InsertKeeps(sorted[..m], x);
    }
  }

  lemma {:induction false} InsertOrders(sorted: seq<Span>, x: Span)
    requires ByStart(sorted)
    ensures ByStart(Insert(sorted, x))
  {
    if sorted != [] && Begin(sorted[|sorted| - 1]) > Begin(x) {
      var m := |sorted| - 1;
      var before, more := sorted[..m], Insert(sorted[..m], x);
      InsertOrders(before, x);
      InsertKeeps(before, x);
      forall i | 0 <= i < |more|
        ensures Begin(more[i]) <= Begin(sorted[m])
      {
        assert more[i] in multiset(more);
        assert more[i] == x || more[i] in multiset(before);
      }
    }
  }

  lemma {:induction false} InsertIsStable(sorted: seq<Span>, x: Span, t: int)
    ensures StartingAt(Insert(sorted, x), t) == StartingAt(sorted, t) + if Begin(x) == t then [x] else []
  {
    if sorted == [] || Begin(sorted[|sorted| - 1]) <= Begin(x) {
      StartingSnoc(sorted, x, t);
    } else {
      var before, last := sorted[..|sorted| - 1], sorted[|sorted| - 1];
      InsertIsStable(before, x, t);
      StartingSnoc(Insert(before, x), last, t);
    }
  }

  /** A sort that keeps the spans, orders them by start and does not swap spans that start together. */
  lemma {:induction false} SortIsStable(list: seq<Span>, t: int)
    ensures multiset(Sort(list)) == multiset(list)
    ensures ByStart(Sort(list))
    ensures StartingAt(Sort(list), t) == StartingAt(list, t)
  {
    if list != [] {
      var m := |list| - 1;
      assert list == list[..m] + [list[m]];
      SortIsStable(list[..m], t);
      InsertKeeps(Sort(list[..m]), list[m]);
      InsertOrders(Sort(list[..m]), list[m]);
      InsertIsStable(Sort(list[..m]), list[m], t);
    }
  }

  // Grouping by parent.

  /** The spans of `some` under the parent `id`, as they come. */
  function Group(spans: seq<Span>, some: seq<Span>, id: string): seq<Span> {
    if some == [] then []
    else
      var m := |some| - 1;
      Group(spans, some[..m], id) + if ParentOf(spans, some[m]) == id then [some[m]] else []
  }

  function Kids(spans: seq<Span>, id: string): seq<Span> {
    Sort(Group(spans, spans, id))
  }

  method ChildrenOf(spans: seq<Span>) returns (kids: map<string, seq<Span>>)
    ensures forall id :: Find(kids, id).GetOr([]) == Kids(spans, id)
  {
    var lists: map<string, seq<Span>> := map[];
    for i := 0 to |spans|
      invariant forall id :: Find(lists, id).GetOr([]) == Group(spans, spans[..i], id)
    {
      var span := spans[i];
      var parent := if span.parent != "" && HasId(spans, span.parent) then span.parent else "";
      var list := Find(lists, parent).GetOr([]);
      assert spans[..i + 1][..i] == spans[..i];
      lists := lists[parent := list + [span]];
    }
    assert spans[..|spans|] == spans;
    kids := map id | id in lists :: Sort(lists[id]);
  }
}
