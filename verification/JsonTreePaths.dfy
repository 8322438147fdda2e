/** Which rows the open tree has, and in which order, said by following paths into the value. */
module JsonTreePaths {
  import opened Basics
  import opened Texts
  import opened JsonPrinter
  import opened JsonGrammar
  import opened JsonReading
  import opened JsonPaths
  import opened JsonTree

  // What is shown for a value.

  predicate SpaceFrom(t: string, i: nat, j: nat)
    requires i <= j <= |t|
  {
    forall k :: i <= k < j ==> IsSpace(t[k])
  }

  /** Without the white space around it the text is `t[i..j]`. */
  predicate TrimsTo(t: string, i: nat, j: nat) {
    && i < j <= |t|
    && SpaceFrom(t, 0, i) && SpaceFrom(t, j, |t|)
    && !IsSpace(t[i]) && !IsSpace(t[j - 1])
  }

  /** At least two characters between the white space, of which the first opens an object or an array. */
  ghost predicate LooksNested(t: string) {
    exists i: nat, j: nat :: TrimsTo(t, i, j) && j - i >= 2 && (t[i] == '{' || t[i] == '[')
  }

  /** The string `v` is opened, and shown as the object or array it holds. */
  ghost predicate OpensTo(view: View, v: Json, w: Json) {
    view.embedded && v.Str? && LooksNested(v.s) && view.parse(v.s) == Some(w) && (w.Arr? || w.Obj?)
  }

  ghost predicate ShowsAs(view: View, v: Json, w: Json) {
    OpensTo(view, v, w) || (w == v && forall u :: !OpensTo(view, v, u))
  }

  lemma SolidIn(t: string, i: nat, j: nat, x: nat)
    requires TrimsTo(t, i, j) && x < |t| && !IsSpace(t[x])
    ensures i <= x < j
  {
  }

  lemma TrimsOnce(t: string, i: nat, j: nat, k: nat, l: nat)
    requires TrimsTo(t, i, j) && TrimsTo(t, k, l)
    ensures i == k && j == l
  {
    SolidIn(t, i, j, k);
    SolidIn(t, i, j, l - 1);
    SolidIn(t, k, l, i);
    SolidIn(t, k, l, j - 1);
  }

  lemma {:induction false} TrimExactly(t: string) returns (i: nat, j: nat)
    ensures i <= j <= |t| && Trim(t) == t[i..j] && SpaceFrom(t, 0, i) && SpaceFrom(t, j, |t|)
    ensures i < j ==> TrimsTo(t, i, j)
    decreases |t|
  {
    if t != "" && IsSpace(t[0]) {
      var k, l := TrimExactly(t[1..]);
      i, j := k + 1, l + 1;
      assert forall m :: 0 < m < |t| ==> t[m] == t[1..][m - 1];
      assert t[1..][k..l] == t[i..j];
    } else if t != "" && IsSpace(t[|t| - 1]) {
      var front := t[..|t| - 1];
      i, j := TrimExactly(front);
      assert front[i..j] == t[i..j];
      assert forall m :: 0 <= m < |front| ==> t[m] == front[m];
    } else {
      i, j := 0, |t|;
      assert t[0..|t|] == t;
    }
  }

  lemma NestedExactly(t: string)
    ensures LooksNested(t) <==> |Trim(t)| >= 2 && (Trim(t)[0] == '{' || Trim(t)[0] == '[')
  {
    var i, j := TrimExactly(t);
    if k: nat, l: nat :| TrimsTo(t, k, l) && l - k >= 2 && (t[k] == '{' || t[k] == '[') {
      NotAllSpace(t, i, j, k);
      TrimsOnce(t, i, j, k, l);
    }
  }

  lemma NotAllSpace(t: string, i: nat, j: nat, k: nat)
    requires i <= j <= |t| && SpaceFrom(t, 0, i) && SpaceFrom(t, j, |t|) && k < |t| && !IsSpace(t[k])
    ensures i < j
  {
  }

  /** unwrapEmbedded opens exactly these strings. */
  lemma ShownExactly(view: View, v: Json, w: Json)
    ensures ShowsAs(view, v, w) <==> w == Shown(view, v)
  {
    if v.Str? {
      NestedExactly(v.s);
    }
    var shown := Shown(view, v);
    if OpensTo(view, v, shown) {
      assert forall u :: OpensTo(view, v, u) ==> u == shown;
    } else {
      assert forall u :: !OpensTo(view, v, u);
    }
  }

  // Following a path.

  function CountOf(w: Json): nat {
    match w
    case Arr(items) => |items|
    case Obj(members) => |members|
    case _ => 0
  }

  /** `child` is the `k`-th entry of `w`: an item under its index, or the value of a member under its name. */
  predicate IsEntry(w: Json, k: nat, segment: Segment, child: Json) {
    match w
    case Arr(items) => k < |items| && segment == Index(k) && child == items[k]
    case Obj(members) => k < |members| && segment == Name(members[k].name) && child == members[k].value
    case _ => false
  }

  ghost predicate StepsTo(view: View, v: Json, segment: Segment, child: Json) {
    exists w, k :: ShowsAs(view, v, w) && IsEntry(w, k, segment, child)
  }

  /** The path leads from `v` to `u`, through strings that are opened. */
  ghost predicate ResolvesTo(view: View, v: Json, path: Path, u: Json)
    decreases |path|
  {
    if path == [] then u == v
    else exists child :: StepsTo(view, v, path[0], child) && ResolvesTo(view, child, path[1..], u)
  }

  /** The row of the value `u` at `path`. */
  ghost predicate IsRowOf(view: View, u: Json, path: Path, row: Row) {
    && row.path == path && row.depth == |path| && ShowsAs(view, u, row.value)
    && row.childCount == CountOf(row.value) && row.matched == view.matches(path, row.value)
  }

  lemma RowOfExactly(view: View, u: Json, path: Path, row: Row)
    ensures IsRowOf(view, u, path, row) <==> row == RowFor(view, u, path)
  {
    ShownExactly(view, u, row.value);
    ShownExactly(view, u, Shown(view, u));
  }

  lemma EntryExactly(w: Json, k: nat, segment: Segment, child: Json)
    ensures IsEntry(w, k, segment, child) <==> k < |Children(w)| && Children(w)[k] == Child(segment, child)
  {
  }

  lemma StepExactly(view: View, v: Json, segment: Segment, child: Json)
    ensures StepsTo(view, v, segment, child) <==>
            exists k :: 0 <= k < |Children(Shown(view, v))| && Children(Shown(view, v))[k] == Child(segment, child)
  {
    var shown := Shown(view, v);
    ShownExactly(view, v, shown);
    if w, k :| ShowsAs(view, v, w) && IsEntry(w, k, segment, child) {
      ShownExactly(view, v, w);
      EntryExactly(shown, k, segment, child);
    }
    if k :| 0 <= k < |Children(shown)| && Children(shown)[k] == Child(segment, child) {
      EntryExactly(shown, k, segment, child);
    }
  }

  // The rows are those of the paths that resolve.

  lemma {:induction false} BelowHas(view: View, children: seq<Child>, path: Path, row: Row)
    requires Sound(view.parse)
    ensures row in RowsBelow(view, children, path, {}) <==>
            exists k :: 0 <= k < |children| && row in Rows(view, children[k].value, path + [children[k].segment], {})
    decreases |children|
  {
    if children != [] {
      var tail := children[1..];
      BelowHas(view, tail, path, row);
      if k :| 0 <= k < |tail| && row in Rows(view, tail[k].value, path + [tail[k].segment], {}) {
        assert children[k + 1] == tail[k];
      }
      if k :| 0 <= k < |children| && row in Rows(view, children[k].value, path + [children[k].segment], {}) {
        if k > 0 {
          assert tail[k - 1] == children[k];
        }
      }
    }
  }

  /** `row` is the row of what some path from `v` leads to. */
  ghost predicate RowsSome(view: View, v: Json, base: Path, row: Row, p: Path, u: Json) {
    ResolvesTo(view, v, p, u) && IsRowOf(view, u, base + p, row)
  }

  lemma OneStepMore(view: View, v: Json, base: Path, row: Row, c: Child, p: Path, u: Json)
    requires StepsTo(view, v, c.segment, c.value) && RowsSome(view, c.value, base + [c.segment], row, p, u)
    ensures RowsSome(view, v, base, row, [c.segment] + p, u)
  {
    assert ([c.segment] + p)[1..] == p;
    assert base + [c.segment] + p == base + ([c.segment] + p);
  }

  lemma OneStepLess(view: View, v: Json, base: Path, row: Row, p: Path, u: Json) returns (c: Child)
    requires RowsSome(view, v, base, row, p, u) && p != []
    ensures StepsTo(view, v, c.segment, c.value) && RowsSome(view, c.value, base + [c.segment], row, p[1..], u)
  {
    var child :| StepsTo(view, v, p[0], child) && ResolvesTo(view, child, p[1..], u);
    c := Child(p[0], child);
    assert base + [p[0]] + p[1..] == base + p;
  }

  lemma {:induction false} RowsResolve(view: View, v: Json, base: Path, row: Row)
    requires Sound(view.parse)
    ensures row in Rows(view, v, base, {}) <==> exists p, u :: RowsSome(view, v, base, row, p, u)
    decreases Weight(v), 0
  {
    var children := Children(Shown(view, v));
    ShownChildrenWeighLess(view, v);
    BelowHas(view, children, base, row);
    RowOfExactly(view, v, base, row);
    assert base + [] == base;
    if row == RowFor(view, v, base) {
      assert RowsSome(view, v, base, row, [], v);
    }
    if k :| 0 <= k < |children| && row in Rows(view, children[k].value, base + [children[k].segment], {}) {
      RowComesFromChild(view, v, base, row, children, k);
    }
    if p, u :| RowsSome(view, v, base, row, p, u) {
      if p != [] {
        RowIsInChild(view, v, base, row, children, p, u);
      }
    }
  }

  lemma {:induction false} RowComesFromChild(view: View, v: Json, base: Path, row: Row, children: seq<Child>, k: nat)
    requires Sound(view.parse) && children == Children(Shown(view, v)) && k < |children|
    requires WeightOf(children) < Weight(v) && row in Rows(view, children[k].value, base + [children[k].segment], {})
    ensures exists p, u :: RowsSome(view, v, base, row, p, u)
    decreases WeightOf(children), 1
  {
    var c := children[k];
    ChildWeighsLess(children, k);
    RowsResolve(view, c.value, base + [c.segment], row);
    var p, u :| RowsSome(view, c.value, base + [c.segment], row, p, u);
    StepExactly(view, v, c.segment, c.value);
    OneStepMore(view, v, base, row, c, p, u);
  }

  lemma ChildAt(view: View, v: Json, c: Child, children: seq<Child>) returns (k: nat)
    requires Sound(view.parse) && children == Children(Shown(view, v)) && StepsTo(view, v, c.segment, c.value)
    ensures k < |children| && children[k] == c && Weight(c.value) <= WeightOf(children)
  {
    StepExactly(view, v, c.segment, c.value);
    k :| 0 <= k < |children| && children[k] == c;
    ChildWeighsLess(children, k);
  }

  lemma {:induction false} RowIsInChild(view: View, v: Json, base: Path, row: Row, children: seq<Child>, p: Path,
                                        u: Json)
    requires Sound(view.parse) && children == Children(Shown(view, v))
    requires WeightOf(children) < Weight(v) && p != [] && RowsSome(view, v, base, row, p, u)
    ensures exists k :: 0 <= k < |children| && row in Rows(view, children[k].value, base + [children[k].segment], {})
    decreases WeightOf(children), 1
  {
    var c := OneStepLess(view, v, base, row, p, u);
    var k := ChildAt(view, v, c, children);
    RowsResolve(view, c.value, base + [c.segment], row);
  }

  /** The rows of the open tree: one kind of row for every path that resolves, for what it resolves to. */
  lemma RowsExactly(view: View, v: Json, row: Row)
    requires Sound(view.parse)
    ensures row in FullRows(view, v) <==>
            exists u :: ResolvesTo(view, v, row.path, u) && IsRowOf(view, u, row.path, row)
  {
    RowsResolve(view, v, [], row);
    if p, u :| RowsSome(view, v, [], row, p, u) {
      assert [] + p == p;
    }
    if u :| ResolvesTo(view, v, row.path, u) && IsRowOf(view, u, row.path, row) {
      assert [] + row.path == row.path;
      assert RowsSome(view, v, [], row, row.path, u);
    }
  }

  /** A path has a row exactly when it resolves. */
  lemma PathsExactly(view: View, v: Json, path: Path)
    requires Sound(view.parse)
    ensures (exists row :: row in FullRows(view, v) && row.path == path) <==> exists u :: ResolvesTo(view, v, path, u)
  {
    if row :| row in FullRows(view, v) && row.path == path {
      RowsExactly(view, v, row);
    }
    if u :| ResolvesTo(view, v, path, u) {
      var row := RowFor(view, u, path);
      RowOfExactly(view, u, path, row);
      RowsExactly(view, v, row);
    }
  }
}
