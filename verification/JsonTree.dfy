/** The collapsible JSON tree: rows in preorder, strings that hold JSON opened in place. */
module JsonTree {
  import opened Basics
  import opened Texts
  import opened JsonTokens
  import opened JsonPrinter
  import opened JsonGrammar
  import opened JsonPaths

  datatype Row = Row(path: Path, depth: nat, value: Json, childCount: nat, matched: bool) {
    predicate Expandable() {
      childCount > 0
    }
  }

  /** JSON.parse, whether embedded strings are opened, and the search test (constantly false without a search). */
  datatype View = View(parse: string -> Option<Json>, embedded: bool, matches: (Path, Json) -> bool)

  /** JSON.parse returns only what the text denotes, with its numbers rounded. */
  ghost predicate Sound(parse: string -> Option<Json>) {
    forall t :: parse(t).Some? ==> exists v :: Denotes(t, v) && Respelled(v, parse(t).value)
  }

  function Trim(t: string): string
    decreases |t|
  {
    if t != "" && IsSpace(t[0]) then Trim(t[1..])
    else if t != "" && IsSpace(t[|t| - 1]) then Trim(t[..|t| - 1])
    else t
  }

  /** unwrapEmbedded: a string that holds an object or an array is shown as that. */
  function Shown(view: View, v: Json): Json {
    if !view.embedded || !v.Str? then v
    else
      var trimmed := Trim(v.s);
      if |trimmed| < 2 || (trimmed[0] != '{' && trimmed[0] != '[') then v
      else
        match view.parse(v.s)
        case Some(parsed) => if parsed.Arr? || parsed.Obj? then parsed else v
        case None => v
  }

  datatype Child = Child(segment: Segment, value: Json)

  function Children(v: Json): seq<Child> {
    match v
    case Arr(items) => seq(|items|, i requires 0 <= i < |items| => Child(Index(i), items[i]))
    case Obj(members) => seq(|members|, i requires 0 <= i < |members| => Child(Name(members[i].name), members[i].value))
    case _ => []
  }

  function WeightOf(children: seq<Child>): nat {
    if children == [] then 0 else Weight(children[0].value) + WeightOf(children[1..])
  }

  lemma {:induction false} ItemsWeigh(items: seq<Json>, children: seq<Child>)
    requires |children| == |items| && forall i :: 0 <= i < |items| ==> children[i].value == items[i]
    ensures WeightOf(children) == WeightOfItems(items)
  {
    if items != [] {
      ItemsWeigh(items[1..], children[1..]);
    }
  }

  lemma {:induction false} MembersWeigh(members: seq<Member>, children: seq<Child>)
    requires |children| == |members| && forall i :: 0 <= i < |members| ==> children[i].value == members[i].value
    ensures WeightOf(children) == WeightOfMembers(members)
  {
    if members != [] {
      MembersWeigh(members[1..], children[1..]);
    }
  }

  /** Opening a string never gains weight, and the children of a value weigh less than the value: the walk ends. */
  lemma ShownChildrenWeighLess(view: View, v: Json)
    requires Sound(view.parse)
    ensures WeightOf(Children(Shown(view, v))) < Weight(v)
  {
    var shown := Shown(view, v);
    if shown != v {
      var parsed :| Denotes(v.s, parsed) && Respelled(parsed, shown);
      WeighsNoMore(v.s, parsed);
      RespelledWeighsSame(parsed, shown);
    }
    match shown
    case Arr(items) => ItemsWeigh(items, Children(shown));
    case Obj(members) => MembersWeigh(members, Children(shown));
    case _ =>
  }

  function RowFor(view: View, v: Json, path: Path): Row {
    var shown := Shown(view, v);
    Row(path, |path|, shown, |Children(shown)|, view.matches(path, shown))
  }

  ghost function Rows(view: View, v: Json, path: Path, collapsed: set<string>): seq<Row>
    requires Sound(view.parse)
    decreases Weight(v), 1
  {
    ShownChildrenWeighLess(view, v);
    [RowFor(view, v, path)]
    + if Id(path) in collapsed then [] else RowsBelow(view, Children(Shown(view, v)), path, collapsed)
  }

  ghost function RowsBelow(view: View, children: seq<Child>, path: Path, collapsed: set<string>): seq<Row>
    requires Sound(view.parse)
    decreases WeightOf(children), 2, |children|
  {
    if children == [] then []
    else
      Rows(view, children[0].value, path + [children[0].segment], collapsed)
      + RowsBelow(view, children[1..], path, collapsed)
  }

  /** walkJson: appends the rows of one subtree to `out`. */
  method WalkJson(view: View, v: Json, path: Path, depth: nat, out: seq<Row>, collapsed: set<string>)
    returns (rows: seq<Row>)
    requires Sound(view.parse) && depth == |path|
    ensures rows == out + Rows(view, v, path, collapsed)
    decreases Weight(v), 1
  {
    var shown := Shown(view, v);
    var entries := Children(shown);
    var row := Row(path, depth, shown, |entries|, view.matches(path, shown));
    rows := out + [row];
    if entries == [] || Id(path) in collapsed {
      return;
    }
    ShownChildrenWeighLess(view, v);
    ConcatAssoc(out, [row], RowsBelow(view, entries, path, collapsed));
    rows := WalkEntries(view, entries, path, depth, rows, collapsed);
  }

  /** The loop of walkJson over the entries of a row that is open. */
  method WalkEntries(view: View, entries: seq<Child>, path: Path, depth: nat, out: seq<Row>, collapsed: set<string>)
    returns (rows: seq<Row>)
    requires Sound(view.parse) && depth == |path|
    ensures rows == out + RowsBelow(view, entries, path, collapsed)
    decreases WeightOf(entries), 2
  {
    rows := out;
    for i := 0 to |entries|
      invariant rows == out + RowsBelow(view, entries[..i], path, collapsed)
    {
      ChildWeighsLess(entries, i);
      ghost var deeper := Rows(view, entries[i].value, path + [entries[i].segment], collapsed);
      RowsBelowNext(view, entries, i, path, collapsed);
      ConcatAssoc(out, RowsBelow(view, entries[..i], path, collapsed), deeper);
      rows := WalkJson(view, entries[i].value, path + [entries[i].segment], depth + 1, rows, collapsed);
    }
    assert entries[..|entries|] == entries;
  }

  lemma RowsBelowFirst(view: View, list: seq<Child>, child: Child, tail: seq<Child>, path: Path, collapsed: set<string>)
    requires Sound(view.parse) && list == [child] + tail
    ensures RowsBelow(view, list, path, collapsed)
         == Rows(view, child.value, path + [child.segment], collapsed) + RowsBelow(view, tail, path, collapsed)
  {
    assert list[1..] == tail;
  }

  lemma {:induction false} RowsBelowLast(view: View, front: seq<Child>, child: Child, path: Path,
                                         collapsed: set<string>)
    requires Sound(view.parse)
    ensures RowsBelow(view, front + [child], path, collapsed)
         == RowsBelow(view, front, path, collapsed) + Rows(view, child.value, path + [child.segment], collapsed)
    decreases |front|
  {
    var below := Rows(view, child.value, path + [child.segment], collapsed);
    if front == [] {
      RowsBelowFirst(view, front + [child], child, [], path, collapsed);
    } else {
      var first, tail := front[0], front[1..];
      assert front == [first] + tail;
      ConcatAssoc([first], tail, [child]);
      RowsBelowFirst(view, front, first, tail, path, collapsed);
      RowsBelowFirst(view, front + [child], first, tail + [child], path, collapsed);
      RowsBelowLast(view, tail, child, path, collapsed);
      var above := Rows(view, first.value, path + [first.segment], collapsed);
      ConcatAssoc(above, RowsBelow(view, tail, path, collapsed), below);
    }
  }

  lemma RowsBelowNext(view: View, children: seq<Child>, i: nat, path: Path, collapsed: set<string>)
    requires Sound(view.parse) && i < |children|
    ensures RowsBelow(view, children[..i + 1], path, collapsed)
         == RowsBelow(view, children[..i], path, collapsed)
          + Rows(view, children[i].value, path + [children[i].segment], collapsed)
  {
    RowsBelowLast(view, children[..i], children[i], path, collapsed);
    assert children[..i + 1] == children[..i] + [children[i]];
  }

  lemma {:induction false} ChildWeighsLess(children: seq<Child>, i: nat)
    requires i < |children|
    ensures Weight(children[i].value) <= WeightOf(children)
  {
    if i > 0 {
      ChildWeighsLess(children[1..], i - 1);
    }
  }

  // Visible rows are the full rows without those under a collapsed one.

  ghost predicate HiddenFrom(base: nat, path: Path, collapsed: set<string>) {
    exists k :: base <= k < |path| && Id(path[..k]) in collapsed
  }

  /** A proper ancestor of the row is collapsed. */
  ghost predicate Hidden(row: Row, collapsed: set<string>) {
    HiddenFrom(0, row.path, collapsed)
  }

  ghost function Keep(rows: seq<Row>, base: nat, collapsed: set<string>): seq<Row> {
    if rows == [] then []
    else (if HiddenFrom(base, rows[0].path, collapsed) then [] else [rows[0]]) + Keep(rows[1..], base, collapsed)
  }

  lemma KeepFirst(row: Row, rows: seq<Row>, base: nat, collapsed: set<string>)
    ensures Keep([row] + rows, base, collapsed) ==
            (if HiddenFrom(base, row.path, collapsed) then [] else [row]) + Keep(rows, base, collapsed)
  {
    assert ([row] + rows)[1..] == rows;
  }

  lemma {:induction false} KeepConcat(a: seq<Row>, b: seq<Row>, base: nat, collapsed: set<string>)
    ensures Keep(a + b, base, collapsed) == Keep(a, base, collapsed) + Keep(b, base, collapsed)
  {
    if a == [] {
      assert a + b == b;
    } else {
      var rest := a[1..];
      assert a == [a[0]] + rest;
      KeepConcat(rest, b, base, collapsed);
      KeepFirst(a[0], rest, base, collapsed);
      KeepFirst(a[0], rest + b, base, collapsed);
      ConcatAssoc([a[0]], rest, b);
      ConcatAssoc(if HiddenFrom(base, a[0].path, collapsed) then [] else [a[0]], Keep(rest, base, collapsed),
                  Keep(b, base, collapsed));
    }
  }

  /** Every row of a subtree lies at or below its root. */
  lemma {:induction false} RowsLieBelow(view: View, v: Json, path: Path, collapsed: set<string>)
    requires Sound(view.parse)
    ensures forall row :: row in Rows(view, v, path, collapsed) ==> path <= row.path && row.depth == |row.path|
    decreases Weight(v), 1
  {
    ShownChildrenWeighLess(view, v);
    ChildRowsLieBelow(view, Children(Shown(view, v)), path, collapsed);
  }

  lemma {:induction false} ChildRowsLieBelow(view: View, children: seq<Child>, path: Path, collapsed: set<string>)
    requires Sound(view.parse)
    ensures forall row :: row in RowsBelow(view, children, path, collapsed) ==>
              path < row.path && row.depth == |row.path|
    decreases WeightOf(children), 2, |children|
  {
    if children != [] {
      RowsLieBelow(view, children[0].value, path + [children[0].segment], collapsed);
      ChildRowsLieBelow(view, children[1..], path, collapsed);
    }
  }

  lemma {:induction false} KeepNone(rows: seq<Row>, path: Path, collapsed: set<string>)
    requires Id(path) in collapsed && forall row :: row in rows ==> path < row.path
    ensures Keep(rows, |path|, collapsed) == []
  {
    if rows != [] {
      assert rows[0].path[..|path|] == path;
      KeepNone(rows[1..], path, collapsed);
    }
  }

  lemma HiddenDeeper(path: Path, below: Path, collapsed: set<string>)
    requires Id(path) !in collapsed && path < below
    ensures HiddenFrom(|path|, below, collapsed) <==> HiddenFrom(|path| + 1, below, collapsed)
  {
    assert below[..|path|] == path;
    if k :| |path| <= k < |below| && Id(below[..k]) in collapsed {
      assert k != |path|;
    }
  }

  lemma {:induction false} KeepDeeper(rows: seq<Row>, path: Path, collapsed: set<string>)
    requires Id(path) !in collapsed && forall row :: row in rows ==> path < row.path
    ensures Keep(rows, |path|, collapsed) == Keep(rows, |path| + 1, collapsed)
  {
    if rows != [] {
      HiddenDeeper(path, rows[0].path, collapsed);
      KeepDeeper(rows[1..], path, collapsed);
    }
  }

  lemma {:induction false} VisibleBelow(view: View, v: Json, path: Path, collapsed: set<string>)
    requires Sound(view.parse)
    ensures Rows(view, v, path, collapsed) == Keep(Rows(view, v, path, {}), |path|, collapsed)
    decreases Weight(v), 1
  {
    ShownChildrenWeighLess(view, v);
    var children := Children(Shown(view, v));
    var row := RowFor(view, v, path);
    var below := RowsBelow(view, children, path, {});
    ChildRowsLieBelow(view, children, path, {});
    assert Rows(view, v, path, {}) == [row] + below;
    assert ([row] + below)[1..] == below;
    assert Keep([row] + below, |path|, collapsed) == [row] + Keep(below, |path|, collapsed);
    if Id(path) in collapsed {
      KeepNone(below, path, collapsed);
    } else {
      KeepDeeper(below, path, collapsed);
      VisibleChildren(view, children, path, collapsed);
    }
  }

  lemma {:induction false} VisibleChildren(view: View, children: seq<Child>, path: Path, collapsed: set<string>)
    requires Sound(view.parse)
    ensures RowsBelow(view, children, path, collapsed) ==
            Keep(RowsBelow(view, children, path, {}), |path| + 1, collapsed)
    decreases WeightOf(children), 2, |children|
  {
    if children != [] {
      var first := path + [children[0].segment];
      VisibleBelow(view, children[0].value, first, collapsed);
      VisibleChildren(view, children[1..], path, collapsed);
      KeepConcat(Rows(view, children[0].value, first, {}), RowsBelow(view, children[1..], path, {}), |path| + 1,
                 collapsed);
    }
  }

  ghost function FullRows(view: View, v: Json): seq<Row>
    requires Sound(view.parse)
  {
    Rows(view, v, [], {})
  }

  ghost function Filtered(rows: seq<Row>, keep: Row -> bool): seq<Row> {
    if rows == [] then [] else (if keep(rows[0]) then [rows[0]] else []) + Filtered(rows[1..], keep)
  }

  lemma {:induction false} KeepIsFilter(rows: seq<Row>, collapsed: set<string>, keep: Row -> bool)
    requires forall row :: row in rows ==> keep(row) == !Hidden(row, collapsed)
    ensures Keep(rows, 0, collapsed) == Filtered(rows, keep)
  {
    if rows != [] {
      KeepIsFilter(rows[1..], collapsed, keep);
    }
  }

  /** The visible rows are the rows of the fully open tree that have no collapsed proper ancestor, in the same order. */
  lemma VisibleRowsAreAFilter(view: View, v: Json, collapsed: set<string>, keep: Row -> bool)
    requires Sound(view.parse)
    requires forall row :: row in FullRows(view, v) ==> keep(row) == !Hidden(row, collapsed)
    ensures Rows(view, v, [], collapsed) == Filtered(FullRows(view, v), keep)
  {
    VisibleBelow(view, v, [], collapsed);
    KeepIsFilter(FullRows(view, v), collapsed, keep);
  }

  lemma {:induction false} KeepHas(rows: seq<Row>, row: Row, collapsed: set<string>)
    ensures row in Keep(rows, 0, collapsed) <==> row in rows && !Hidden(row, collapsed)
  {
    if rows != [] {
      KeepHas(rows[1..], row, collapsed);
    }
  }

  lemma VisibleExactly(view: View, v: Json, collapsed: set<string>, row: Row)
    requires Sound(view.parse)
    ensures row in Rows(view, v, [], collapsed) <==> row in FullRows(view, v) && !Hidden(row, collapsed)
  {
    VisibleBelow(view, v, [], collapsed);
    KeepHas(FullRows(view, v), row, collapsed);
  }

  // The default collapse.

  lemma DeepIdsNext(rows: seq<Row>, i: nat, depth: nat)
    requires i < |rows|
    ensures DeepIds(rows[..i + 1], depth)
         == DeepIds(rows[..i], depth)
          + (if rows[i].Expandable() && rows[i].depth >= depth then {Id(rows[i].path)} else {})
  {
    assert rows[..i + 1] == rows[..i] + [rows[i]];
    assert forall row :: row in rows[..i + 1] <==> row in rows[..i] || row == rows[i];
  }

  /** initialCollapsedIds: the expandable rows from depth `depth` on. */
  method InitialCollapsedIds(view: View, v: Json, depth: nat) returns (ids: set<string>)
    requires Sound(view.parse)
    ensures ids == DeepIds(FullRows(view, v), depth)
  {
    var rows := WalkJson(view, v, [], 0, [], {});
    ids := {};
    for i := 0 to |rows|
      invariant ids == DeepIds(rows[..i], depth)
    {
      DeepIdsNext(rows, i, depth);
      if rows[i].Expandable() && rows[i].depth >= depth {
        ids := ids + {Id(rows[i].path)};
      }
    }
    assert rows[..|rows|] == rows;
  }

  function DeepIds(rows: seq<Row>, depth: nat): set<string> {
    set row | row in rows && row.Expandable() && row.depth >= depth :: Id(row.path)
  }

  /** Every proper prefix of a row's path, from the subtree's root on, is the path of an expandable row. */
  lemma {:induction false} AncestorsAreRows(view: View, v: Json, path: Path, row: Row, k: nat)
    requires Sound(view.parse) && row in Rows(view, v, path, {}) && |path| <= k < |row.path|
    ensures exists above :: above in Rows(view, v, path, {}) && above.path == row.path[..k] && above.Expandable()
    decreases Weight(v), 1
  {
    ShownChildrenWeighLess(view, v);
    RowsLieBelow(view, v, path, {});
    var children := Children(Shown(view, v));
    var top := RowFor(view, v, path);
    assert top in Rows(view, v, path, {});
    assert row in RowsBelow(view, children, path, {});
    if k == |path| {
      assert row.path[..k] == path && children != [];
    } else {
      var above := AncestorsBelow(view, children, path, row, k);
    }
  }

  lemma {:induction false} AncestorsBelow(view: View, children: seq<Child>, path: Path, row: Row, k: nat)
    returns (above: Row)
    requires Sound(view.parse) && row in RowsBelow(view, children, path, {}) && |path| < k < |row.path|
    ensures above in RowsBelow(view, children, path, {}) && above.path == row.path[..k] && above.Expandable()
    decreases WeightOf(children), 2, |children|
  {
    var first := path + [children[0].segment];
    if row in Rows(view, children[0].value, first, {}) {
      AncestorsAreRows(view, children[0].value, first, row, k);
      above :| above in Rows(view, children[0].value, first, {}) && above.path == row.path[..k] && above.Expandable();
    } else {
      above := AncestorsBelow(view, children[1..], path, row, k);
    }
  }

  lemma DeepIdsHide(view: View, v: Json, depth: nat, row: Row)
    requires Sound(view.parse) && row in FullRows(view, v)
    ensures Hidden(row, DeepIds(FullRows(view, v), depth)) <==> row.depth > depth
  {
    var rows := FullRows(view, v);
    var collapsed := DeepIds(rows, depth);
    RowsLieBelow(view, v, [], {});
    if row.depth > depth {
      AncestorsAreRows(view, v, [], row, depth);
      assert Id(row.path[..depth]) in collapsed;
    }
    forall k | 0 <= k < |row.path| && Id(row.path[..k]) in collapsed
      ensures row.depth > depth
    {
      var other :| other in rows && other.Expandable() && other.depth >= depth && Id(other.path) == Id(row.path[..k]);
      IdsDiffer(other.path, row.path[..k]);
    }
  }

  /** With the default collapse at depth `depth` exactly the rows of at most that depth are visible. */
  lemma DefaultCollapseShowsDepth(view: View, v: Json, depth: nat)
    requires Sound(view.parse)
    ensures Rows(view, v, [], DeepIds(FullRows(view, v), depth)) ==
            Filtered(FullRows(view, v), (row: Row) => row.depth <= depth)
  {
    var keep := (row: Row) => row.depth <= depth;
    forall row | row in FullRows(view, v)
      ensures keep(row) == !Hidden(row, DeepIds(FullRows(view, v), depth))
    {
      DeepIdsHide(view, v, depth, row);
    }
    VisibleRowsAreAFilter(view, v, DeepIds(FullRows(view, v), depth), keep);
  }

  // Search.

  /** Ids of the proper prefixes of a path, and of the root. */
  function AncestorIds(path: Path): set<string> {
    {Id([])} + PrefixIds(path, |path|)
  }

  /** Ids of the prefixes of a path shorter than `n`. */
  function PrefixIds(path: Path, n: nat): set<string>
    requires n <= |path|
  {
    set k | 0 <= k < n :: Id(path[..k])
  }

  lemma PrefixIdsNext(path: Path, i: nat)
    requires i < |path|
    ensures PrefixIds(path, i + 1) == PrefixIds(path, i) + {Id(path[..i])}
  {
  }

  method AddAncestorIds(path: Path, keepOpen: set<string>) returns (open: set<string>)
    ensures open == keepOpen + AncestorIds(path)
  {
    var prefix: Path := [];
    open := keepOpen + {Id([])};
    for i := 0 to |path|
      invariant prefix == path[..i]
      invariant open == keepOpen + ({Id([])} + PrefixIds(path, i))
    {
      PrefixIdsNext(path, i);
      open := open + {Id(prefix)};
      prefix := prefix + [path[i]];
    }
  }

  function OpenedFor(rows: seq<Row>): set<string> {
    {Id([])} + set row, id | row in rows && row.matched && id in AncestorIds(row.path) :: id
  }

  lemma OpenedStep(rows: seq<Row>, row: Row)
    ensures OpenedFor(rows + [row]) == OpenedFor(rows) + (if row.matched then AncestorIds(row.path) else {})
  {
    assert forall r :: r in rows + [row] <==> r in rows || r == row;
  }

  lemma OpenedNext(rows: seq<Row>, i: nat)
    requires i < |rows|
    ensures OpenedFor(rows[..i + 1]) ==
            OpenedFor(rows[..i]) + (if rows[i].matched then AncestorIds(rows[i].path) else {})
  {
    var before := rows[..i];
    assert rows[..i + 1] == before + [rows[i]];
    OpenedStep(before, rows[i]);
  }

  /** forceExpandMatches: what stays collapsed during a search. */
  method ForceExpandMatches(view: View, v: Json, collapsed: set<string>) returns (still: set<string>)
    requires Sound(view.parse)
    ensures still == collapsed - OpenedFor(FullRows(view, v))
  {
    var keepOpen := {Id([])};
    var rows := WalkJson(view, v, [], 0, [], {});
    for i := 0 to |rows|
      invariant keepOpen == OpenedFor(rows[..i])
    {
      OpenedNext(rows, i);
      if rows[i].matched {
        keepOpen := AddAncestorIds(rows[i].path, keepOpen);
      }
    }
    assert rows[..|rows|] == rows;
    still := collapsed - keepOpen;
  }

  /** During a search every matching row of the open tree is visible, whatever was collapsed. */
  lemma MatchesAreVisible(view: View, v: Json, collapsed: set<string>, row: Row)
    requires Sound(view.parse) && row in FullRows(view, v) && row.matched
    ensures row in Rows(view, v, [], collapsed - OpenedFor(FullRows(view, v)))
  {
    var still := collapsed - OpenedFor(FullRows(view, v));
    forall k | 0 <= k < |row.path|
      ensures Id(row.path[..k]) !in still
    {
      assert Id(row.path[..k]) in AncestorIds(row.path);
    }
    VisibleExactly(view, v, still, row);
  }

  lemma AncestorIdMeansPrefix(path: Path, below: Path)
    requires Id(path) in AncestorIds(below) && Id(path) != Id([])
    ensures path < below
  {
    var k :| 0 <= k < |below| && Id(below[..k]) == Id(path);
    IdsDiffer(below[..k], path);
  }

  /** A search opens a collapsed row of the tree exactly if it is the root or a proper ancestor of a matching row. */
  lemma OnlyAncestorsAreOpened(view: View, v: Json, row: Row)
    requires Sound(view.parse) && row in FullRows(view, v)
    ensures Id(row.path) in OpenedFor(FullRows(view, v))
       <==> row.path == [] || exists hit :: hit in FullRows(view, v) && hit.matched && row.path < hit.path
  {
    var rows := FullRows(view, v);
    if Id(row.path) in OpenedFor(rows) && Id(row.path) != Id([]) {
      var hit :| hit in rows && hit.matched && Id(row.path) in AncestorIds(hit.path);
      AncestorIdMeansPrefix(row.path, hit.path);
    } else if Id(row.path) == Id([]) {
      IdsDiffer(row.path, []);
    }
    if hit :| hit in rows && hit.matched && row.path < hit.path {
      assert hit.path[..|row.path|] == row.path;
      assert Id(row.path) in AncestorIds(hit.path);
    }
  }
}
