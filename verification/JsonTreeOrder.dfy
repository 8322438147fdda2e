/** The order of the rows of the open tree: every row under its parent, siblings as they stand in the value. */
module JsonTreeOrder {
  import opened Basics
  import opened JsonPrinter
  import opened JsonGrammar
  import opened JsonReading
  import opened JsonPaths
  import opened JsonTree
  import opened JsonTreePaths

  // Member names differ, also in what a string is opened to.

  predicate DistinctNames(v: Json)
    decreases v
  {
    match v
    case Arr(items) => forall i :: 0 <= i < |items| ==> DistinctNames(items[i])
    case Obj(members) =>
      NamesDiffer(members) && forall i :: 0 <= i < |members| ==> DistinctNames(members[i].value)
    case _ => true
  }

  lemma {:induction false} SameIsDistinct(v: Json, w: Json)
    requires Same(v, w)
    ensures DistinctNames(v)
    decreases v
  {
    match v
    case Arr(items) =>
      forall i | 0 <= i < |items|
        ensures DistinctNames(items[i])
      {
        SameIsDistinct(items[i], w.items[i]);
      }
    case Obj(members) =>
      forall i | 0 <= i < |members|
        ensures DistinctNames(members[i].value)
      {
        assert HasName(w.members, members[i].name);
        var j :| 0 <= j < |w.members| && w.members[j].name == members[i].name;
        SameIsDistinct(members[i].value, w.members[j].value);
      }
    case _ =>
  }

  lemma {:induction false} RespelledIsDistinct(v: Json, w: Json)
    requires Respelled(v, w) && DistinctNames(v)
    ensures DistinctNames(w)
    decreases v
  {
    match v
    case Arr(items) =>
      forall i | 0 <= i < |items|
        ensures DistinctNames(w.items[i])
      {
        RespelledIsDistinct(items[i], w.items[i]);
      }
    case Obj(members) =>
      forall i | 0 <= i < |members|
        ensures DistinctNames(w.members[i].value)
      {
        RespelledIsDistinct(members[i].value, w.members[i].value);
      }
    case _ =>
  }

  lemma ShownIsDistinct(view: View, v: Json)
    requires Sound(view.parse) && DistinctNames(v)
    ensures DistinctNames(Shown(view, v))
  {
    var shown := Shown(view, v);
    if shown != v {
      var read :| Denotes(v.s, read) && Respelled(read, shown);
      DenotesOneValue(v.s, read, read);
      SameIsDistinct(read, read);
      RespelledIsDistinct(read, shown);
    }
  }

  /** No two entries under one segment, and the same again below. */
  ghost predicate Unambiguous(children: seq<Child>) {
    && (forall k, l :: 0 <= k < l < |children| ==> children[k].segment != children[l].segment)
    && (forall k :: 0 <= k < |children| ==> DistinctNames(children[k].value))
  }

  lemma ChildrenAreUnambiguous(view: View, v: Json)
    requires Sound(view.parse) && DistinctNames(v)
    ensures Unambiguous(Children(Shown(view, v)))
  {
    ShownIsDistinct(view, v);
  }

  // Siblings.

  /** The entry under `s` stands before the one under `t`. */
  ghost predicate Before(w: Json, s: Segment, t: Segment) {
    exists k, l, a, b :: k < l && IsEntry(w, k, s, a) && IsEntry(w, l, t, b)
  }

  /** What `path`, from `base` on, leads to is shown with `s` before `t`. */
  ghost predicate SiblingsAt(view: View, v: Json, base: Path, path: Path, s: Segment, t: Segment) {
    && base <= path
    && exists u, w :: ResolvesTo(view, v, path[|base|..], u) && ShowsAs(view, u, w) && Before(w, s, t)
  }

  /** The same for the rows under some entries of `base`. */
  ghost predicate SiblingsBelow(view: View, children: seq<Child>, base: Path, path: Path, s: Segment, t: Segment) {
    && base <= path
    && if path == base then
         exists k, l :: 0 <= k < l < |children| && children[k].segment == s && children[l].segment == t
       else
         exists k ::
           0 <= k < |children| && SiblingsAt(view, children[k].value, base + [children[k].segment], path, s, t)
  }

  predicate IsPair(rows: seq<Row>, a: nat, b: nat, path: Path, s: Segment, t: Segment) {
    a < b < |rows| && rows[a].path == path + [s] && rows[b].path == path + [t]
  }

  lemma LaterBelow(view: View, c: Child, tail: seq<Child>, base: Path, path: Path, s: Segment, t: Segment)
    requires SiblingsBelow(view, tail, base, path, s, t)
    ensures SiblingsBelow(view, [c] + tail, base, path, s, t)
  {
    var children := [c] + tail;
    if path == base {
      var k, l :| 0 <= k < l < |tail| && tail[k].segment == s && tail[l].segment == t;
      assert children[k + 1] == tail[k] && children[l + 1] == tail[l];
    } else {
      var k :| 0 <= k < |tail| && SiblingsAt(view, tail[k].value, base + [tail[k].segment], path, s, t);
      assert children[k + 1] == tail[k];
    }
  }

  /** A row below `base` has a path through one of the entries. */
  lemma ThroughEntry(view: View, children: seq<Child>, base: Path, row: Row) returns (k: nat)
    requires Sound(view.parse) && row in RowsBelow(view, children, base, {})
    ensures k < |children| && row in Rows(view, children[k].value, base + [children[k].segment], {})
    ensures base + [children[k].segment] <= row.path
  {
    BelowHas(view, children, base, row);
    k :| 0 <= k < |children| && row in Rows(view, children[k].value, base + [children[k].segment], {});
    RowsLieBelow(view, children[k].value, base + [children[k].segment], {});
  }

  /** One row among those of the first entry, the other behind them. */
  lemma AcrossEntries(view: View, c: Child, tail: seq<Child>, base: Path, one: Row, other: Row, path: Path,
                      s: Segment, t: Segment)
    requires Sound(view.parse) && Unambiguous([c] + tail)
    requires one in Rows(view, c.value, base + [c.segment], {}) && other in RowsBelow(view, tail, base, {})
    requires one.path == path + [s] && other.path == path + [t] && base <= path
    ensures SiblingsBelow(view, [c] + tail, base, path, s, t)
  {
    RowsLieBelow(view, c.value, base + [c.segment], {});
    var k := ThroughEntry(view, tail, base, other);
    SegmentAt(one, path, s, base, c.segment);
    SegmentAt(other, path, t, base, tail[k].segment);
    TwoEntries(view, [c] + tail, k + 1, base, path, s, t);
  }

  /** Different entries lead to different parents, unless they are the rows themselves. */
  lemma TwoEntries(view: View, children: seq<Child>, l: nat, base: Path, path: Path, s: Segment, t: Segment)
    requires Unambiguous(children) && 0 < l < |children| && base <= path
    requires children[0].segment == if |base| < |path| then path[|base|] else s
    requires children[l].segment == if |base| < |path| then path[|base|] else t
    ensures SiblingsBelow(view, children, base, path, s, t)
  {
    assert children[0].segment != children[l].segment;
  }

  /** The entry of `base` through which a row's path leads is the row itself or the next step to its parent. */
  lemma SegmentAt(row: Row, path: Path, s: Segment, base: Path, entry: Segment)
    requires row.path == path + [s] && base <= path && base + [entry] <= row.path
    ensures entry == if |base| < |path| then path[|base|] else s
  {
    assert row.path[|base|] == (base + [entry])[|base|];
  }

  /** Both rows among the first, both behind them, or one in each. */
  lemma PairInParts(first: seq<Row>, more: seq<Row>, rows: seq<Row>, a: nat, b: nat, path: Path, s: Segment, t: Segment)
    requires rows == first + more && IsPair(rows, a, b, path, s, t)
    ensures b < |first| ==> IsPair(first, a, b, path, s, t)
    ensures forall k: nat, l: nat :: a == |first| + k && b == |first| + l ==> IsPair(more, k, l, path, s, t)
    ensures a < |first| <= b ==> rows[a] in first && rows[b] in more
  {
  }

  /** Only the first row of a subtree has the path of its root. */
  lemma OthersAreDeeper(view: View, v: Json, path: Path, b: nat)
    requires Sound(view.parse) && 0 < b < |Rows(view, v, path, {})|
    ensures path < Rows(view, v, path, {})[b].path
  {
    var below := RowsBelow(view, Children(Shown(view, v)), path, {});
    ChildRowsLieBelow(view, Children(Shown(view, v)), path, {});
    assert Rows(view, v, path, {})[b] == below[b - 1];
    assert below[b - 1] in below;
  }

  lemma {:induction false} BelowInOrder(view: View, children: seq<Child>, base: Path, rows: seq<Row>, a: nat, b: nat,
                                        path: Path, s: Segment, t: Segment)
    requires Sound(view.parse) && Unambiguous(children) && base <= path
    requires rows == RowsBelow(view, children, base, {}) && IsPair(rows, a, b, path, s, t)
    ensures SiblingsBelow(view, children, base, path, s, t)
    decreases WeightOf(children), 1, |children|
  {
    var c, tail := children[0], children[1..];
    assert children == [c] + tail;
    var first, more := Rows(view, c.value, base + [c.segment], {}), RowsBelow(view, tail, base, {});
    RowsBelowFirst(view, children, c, tail, base, {});
    PairInParts(first, more, rows, a, b, path, s, t);
    if a >= |first| {
      var k, l := a - |first|, b - |first|;
      BelowInOrder(view, tail, base, more, k, l, path, s, t);
      LaterBelow(view, c, tail, base, path, s, t);
    } else if b >= |first| {
      AcrossEntries(view, c, tail, base, rows[a], rows[b], path, s, t);
    } else {
      InFirstEntry(view, children, c, base, first, a, b, path, s, t);
    }
  }

  lemma PathGoesOn(path: Path, row: Row, s: Segment, root: Path)
    requires row.path == path + [s] && root < row.path
    ensures root <= path
  {
    assert row.path[..|root|] == path[..|root|];
  }

  lemma {:induction false} InFirstEntry(view: View, children: seq<Child>, c: Child, base: Path, rows: seq<Row>,
                                        a: nat, b: nat, path: Path, s: Segment, t: Segment)
    requires Sound(view.parse) && Unambiguous(children) && base <= path && children != [] && c == children[0]
    requires rows == Rows(view, c.value, base + [c.segment], {}) && IsPair(rows, a, b, path, s, t)
    ensures SiblingsBelow(view, children, base, path, s, t)
    decreases WeightOf(children), 0, |children|
  {
    var root := base + [c.segment];
    OthersAreDeeper(view, c.value, root, b);
    PathGoesOn(path, rows[b], t, root);
    RowsInOrder(view, c.value, root, rows, a, b, path, s, t);
  }

  lemma EntriesInOrder(view: View, v: Json, base: Path, children: seq<Child>, path: Path, s: Segment, t: Segment)
    requires children == Children(Shown(view, v)) && SiblingsBelow(view, children, base, path, s, t)
    ensures SiblingsAt(view, v, base, path, s, t)
  {
    var shown := Shown(view, v);
    ShownExactly(view, v, shown);
    if path == base {
      var k, l :| 0 <= k < l < |children| && children[k].segment == s && children[l].segment == t;
      EntryExactly(shown, k, s, children[k].value);
      EntryExactly(shown, l, t, children[l].value);
      assert Before(shown, s, t);
      assert path[|base|..] == [];
      assert ResolvesTo(view, v, [], v);
    } else {
      var k :| 0 <= k < |children| && SiblingsAt(view, children[k].value, base + [children[k].segment], path, s, t);
      FromEntry(view, v, base, children[k], k, path, s, t);
    }
  }

  lemma FromEntry(view: View, v: Json, base: Path, c: Child, k: nat, path: Path, s: Segment, t: Segment)
    requires k < |Children(Shown(view, v))| && Children(Shown(view, v))[k] == c
    requires SiblingsAt(view, c.value, base + [c.segment], path, s, t)
    ensures SiblingsAt(view, v, base, path, s, t)
  {
    var n := |base|;
    var u, w :| ResolvesTo(view, c.value, path[|base + [c.segment]|..], u) && ShowsAs(view, u, w) && Before(w, s, t);
    StepExactly(view, v, c.segment, c.value);
    assert path[n] == (base + [c.segment])[n] == c.segment;
    assert path[n..][1..] == path[n + 1..];
    assert ResolvesTo(view, v, path[n..], u);
  }

  lemma PairUnderTop(top: Row, below: seq<Row>, rows: seq<Row>, a: nat, b: nat, path: Path, s: Segment, t: Segment)
    returns (k: nat, l: nat)
    requires rows == [top] + below && top.path <= path && IsPair(rows, a, b, path, s, t)
    ensures IsPair(below, k, l, path, s, t)
  {
    k, l := a - 1, b - 1;
  }

  lemma {:induction false} RowsInOrder(view: View, v: Json, base: Path, rows: seq<Row>, a: nat, b: nat,
                                       path: Path, s: Segment, t: Segment)
    requires Sound(view.parse) && DistinctNames(v) && base <= path
    requires rows == Rows(view, v, base, {}) && IsPair(rows, a, b, path, s, t)
    ensures SiblingsAt(view, v, base, path, s, t)
    decreases Weight(v), 0, 0
  {
    var children := Children(Shown(view, v));
    var top, below := RowFor(view, v, base), RowsBelow(view, children, base, {});
    ShownChildrenWeighLess(view, v);
    ChildrenAreUnambiguous(view, v);
    var k, l := PairUnderTop(top, below, rows, a, b, path, s, t);
    BelowInOrder(view, children, base, below, k, l, path, s, t);
    EntriesInOrder(view, v, base, children, path, s, t);
  }

  /** Of two rows under one parent the one whose entry stands first comes first. */
  lemma SiblingsInOrder(view: View, v: Json, a: nat, b: nat, path: Path, s: Segment, t: Segment)
    requires Sound(view.parse) && DistinctNames(v) && a < b < |FullRows(view, v)|
    requires FullRows(view, v)[a].path == path + [s] && FullRows(view, v)[b].path == path + [t]
    ensures exists u, w :: ResolvesTo(view, v, path, u) && ShowsAs(view, u, w) && Before(w, s, t)
  {
    RowsInOrder(view, v, [], FullRows(view, v), a, b, path, s, t);
    assert path[0..] == path;
  }

  lemma NotBeforeItself(w: Json, s: Segment)
    requires DistinctNames(w)
    ensures !Before(w, s, s)
  {
  }

  lemma {:induction false} ResolvedIsDistinct(view: View, v: Json, path: Path, u: Json)
    requires Sound(view.parse) && DistinctNames(v) && ResolvesTo(view, v, path, u)
    ensures DistinctNames(u)
    decreases |path|
  {
    if path != [] {
      var child :| StepsTo(view, v, path[0], child) && ResolvesTo(view, child, path[1..], u);
      StepExactly(view, v, path[0], child);
      ChildrenAreUnambiguous(view, v);
      ResolvedIsDistinct(view, child, path[1..], u);
    }
  }

  lemma NoPairOfItself(view: View, v: Json, rows: seq<Row>, a: nat, b: nat, path: Path, s: Segment)
    requires Sound(view.parse) && DistinctNames(v) && rows == Rows(view, v, [], {})
    ensures !IsPair(rows, a, b, path, s, s)
  {
    if IsPair(rows, a, b, path, s, s) {
      RowsInOrder(view, v, [], rows, a, b, path, s, s);
      assert path[0..] == path;
      NoSiblingOfItself(view, v, path, s);
    }
  }

  /** No path has two rows. */
  lemma NoPathTwice(view: View, v: Json, a: nat, b: nat)
    requires Sound(view.parse) && DistinctNames(v) && a < b < |FullRows(view, v)|
    ensures FullRows(view, v)[a].path != FullRows(view, v)[b].path
  {
    var rows := FullRows(view, v);
    var path := rows[b].path;
    OthersAreDeeper(view, v, [], b);
    var front, last := path[..|path| - 1], path[|path| - 1];
    assert path == front + [last];
    NoPairOfItself(view, v, rows, a, b, front, last);
  }

  lemma NoSiblingOfItself(view: View, v: Json, path: Path, s: Segment)
    requires Sound(view.parse) && DistinctNames(v)
    ensures !exists u, w :: ResolvesTo(view, v, path, u) && ShowsAs(view, u, w) && Before(w, s, s)
  {
    forall u, w | ResolvesTo(view, v, path, u) && ShowsAs(view, u, w)
      ensures !Before(w, s, s)
    {
      ResolvedIsDistinct(view, v, path, u);
      ShownExactly(view, u, w);
      ShownIsDistinct(view, u);
      NotBeforeItself(w, s);
    }
  }

  // Every row under its parent.

  /** Row `a` is the parent of row `b`, and all rows between are under it too. */
  predicate UnderParent(rows: seq<Row>, a: nat, b: nat) {
    && a < b < |rows| && rows[b].path != []
    && rows[a].path == rows[b].path[..|rows[b].path| - 1]
    && forall m :: a < m < b ==> rows[a].path < rows[m].path
  }

  lemma UnderParentWithin(before: seq<Row>, rows: seq<Row>, behind: seq<Row>, out: seq<Row>, a: nat, b: nat, i: nat,
                          j: nat)
    requires out == before + rows + behind && i == |before| + a && j == |before| + b && UnderParent(rows, a, b)
    ensures UnderParent(out, i, j)
  {
    var n := |before|;
    assert forall m :: 0 <= m < |rows| ==> out[n + m] == rows[m];
    assert out[i] == rows[a] && out[j] == rows[b];
    forall m | i < m < j
      ensures out[i].path < out[m].path
    {
      assert out[m] == rows[m - n];
    }
  }

  /** Row `b` is right below `base`, or its parent is among these rows. */
  ghost predicate Placed(rows: seq<Row>, base: Path, b: nat)
    requires b < |rows|
  {
    (|rows[b].path| == |base| + 1 && base < rows[b].path) || exists a: nat :: UnderParent(rows, a, b)
  }

  lemma PlacedWithin(before: seq<Row>, rows: seq<Row>, behind: seq<Row>, out: seq<Row>, base: Path, b: nat, at: nat)
    requires out == before + rows + behind && b < |rows| && at == |before| + b && Placed(rows, base, b)
    ensures Placed(out, base, at)
  {
    if a: nat :| UnderParent(rows, a, b) {
      var i := |before| + a;
      UnderParentWithin(before, rows, behind, out, a, b, i, at);
    } else {
      assert out[at] == rows[b];
    }
  }

  lemma {:induction false} BelowPlaced(view: View, children: seq<Child>, base: Path, rows: seq<Row>, b: nat)
    requires Sound(view.parse) && rows == RowsBelow(view, children, base, {}) && b < |rows|
    ensures Placed(rows, base, b)
    decreases WeightOf(children), 1, |children|
  {
    var c, tail := children[0], children[1..];
    var path := base + [c.segment];
    assert children == [c] + tail;
    var first, more := Rows(view, c.value, path, {}), RowsBelow(view, tail, base, {});
    RowsBelowFirst(view, children, c, tail, base, {});
    if b >= |first| {
      var l := b - |first|;
      BelowPlaced(view, tail, base, more, l);
      PlacedWithin(first, more, [], rows, base, l, b);
    } else {
      FirstPlaced(view, children, base, first, b);
      PlacedWithin([], first, more, rows, base, b, b);
    }
  }

  lemma {:induction false} FirstPlaced(view: View, children: seq<Child>, base: Path, first: seq<Row>, b: nat)
    requires Sound(view.parse) && children != [] && b < |first|
    requires first == Rows(view, children[0].value, base + [children[0].segment], {})
    ensures Placed(first, base, b)
    decreases WeightOf(children), 0, |children|
  {
    if b > 0 {
      var a := RowHasParent(view, children[0].value, base + [children[0].segment], first, b);
    }
  }

  lemma {:induction false} RowHasParent(view: View, v: Json, base: Path, rows: seq<Row>, b: nat) returns (a: nat)
    requires Sound(view.parse) && rows == Rows(view, v, base, {}) && 0 < b < |rows|
    ensures UnderParent(rows, a, b)
    decreases Weight(v), 0, 0
  {
    var children := Children(Shown(view, v));
    var top, below := RowFor(view, v, base), RowsBelow(view, children, base, {});
    ShownChildrenWeighLess(view, v);
    ChildRowsLieBelow(view, children, base, {});
    var l: nat := b - 1;
    BelowPlaced(view, children, base, below, l);
    a := ParentWithTop(top, below, rows, base, l, b);
  }

  lemma ParentWithTop(top: Row, below: seq<Row>, rows: seq<Row>, base: Path, l: nat, b: nat) returns (a: nat)
    requires rows == [top] + below && top.path == base && b == l + 1 && l < |below|
    requires (forall row :: row in below ==> base < row.path) && Placed(below, base, l)
    ensures UnderParent(rows, a, b)
  {
    if m: nat :| UnderParent(below, m, l) {
      a := 1 + m;
      assert rows == [top] + below + [];
      UnderParentWithin([top], below, [], rows, m, l, a, b);
    } else {
      TopIsParent(top, below, base, b);
      a := 0;
    }
  }

  lemma TopIsParent(top: Row, below: seq<Row>, base: Path, b: nat)
    requires top.path == base && 0 < b <= |below| && (forall row :: row in below ==> base < row.path)
    requires |below[b - 1].path| == |base| + 1
    ensures UnderParent([top] + below, 0, b)
  {
    var rows := [top] + below;
    assert rows[b] == below[b - 1] && below[b - 1] in below;
    forall m | 0 < m < b
      ensures base < rows[m].path
    {
      assert rows[m] == below[m - 1] && below[m - 1] in below;
    }
  }

  /**
   The first row is the value itself; every other row comes after its parent, with only rows under
   the parent between.
   */
  lemma RowsArePreorder(view: View, v: Json, b: nat)
    requires Sound(view.parse) && b < |FullRows(view, v)|
    ensures if b == 0 then FullRows(view, v)[b].path == [] else exists a :: UnderParent(FullRows(view, v), a, b)
  {
    if b > 0 {
      var a := RowHasParent(view, v, [], FullRows(view, v), b);
    }
  }
}
