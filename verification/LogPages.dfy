/** Putting loaded pages of a log together with the rows that are there. */
module LogPages {
  import opened Basics
  import opened LogWindow

  function Filter(rows: seq<LogRow>, keep: LogRow -> bool): (r: seq<LogRow>)
    ensures forall row :: row in r <==> row in rows && keep(row)
    ensures UniqueNumbers(rows) ==> UniqueNumbers(r)
  {
    if rows == [] then []
    else
      var more := Filter(rows[1..], keep);
      assert rows == [rows[0]] + rows[1..];
      assert UniqueNumbers(rows) ==> forall row :: row in more ==> !SameNumber(rows[0], row);
      if keep(rows[0]) then [rows[0]] + more else more
  }

  /** The newest row of a page comes last; rows after it are kept. */
  function MergeLoadedPage(current: seq<LogRow>, page: seq<LogRow>): seq<LogRow> {
    var tail := if page != [] && page[|page| - 1].number.Some? then page[|page| - 1].number.value else -1;
    page + Filter(current, (row: LogRow) => row.number.Some? && row.number.value > tail)
  }

  function NumbersIn(rows: seq<LogRow>): set<Option<int>> {
    set row | row in rows :: row.number
  }

  function PrependOlderPage(current: seq<LogRow>, older: seq<LogRow>): seq<LogRow> {
    if older == [] then current
    else
      var unknown := Filter(older, (row: LogRow) => row.number !in NumbersIn(current));
      if unknown == [] then current else unknown + current
  }

  lemma JoinUnique(a: seq<LogRow>, b: seq<LogRow>)
    requires UniqueNumbers(a) && UniqueNumbers(b) && forall x, y :: x in a && y in b ==> !SameNumber(x, y)
    ensures UniqueNumbers(a + b)
  {
    var rows := a + b;
    forall i, j | 0 <= i < j < |rows|
      ensures !SameNumber(rows[i], rows[j])
    {
      if i < |a| <= j {
        assert rows[i] in a && rows[j] in b;
      }
    }
  }

  /** A page in ascending order, merged in, repeats no number and loses no newer row. */
  lemma MergeKeepsUnique(current: seq<LogRow>, page: seq<LogRow>)
    requires UniqueNumbers(current) && UniqueNumbers(page)
    requires forall i :: 0 <= i < |page| && Numbered(page[i]) ==>
               page[|page| - 1].number.Some? && page[i].number.value <= page[|page| - 1].number.value
    ensures UniqueNumbers(MergeLoadedPage(current, page)) && page <= MergeLoadedPage(current, page)
    ensures forall row :: row in current && Numbered(row) ==>
              (exists row2 :: row2 in page && Numbered(row2) && row.number.value <= row2.number.value) ||
                 row in MergeLoadedPage(current, page)
  {
    var tail := if page != [] && page[|page| - 1].number.Some? then page[|page| - 1].number.value else -1;
    var newer := Filter(current, (row: LogRow) => row.number.Some? && row.number.value > tail);
    JoinUnique(page, newer);
    if page != [] {
      assert page[|page| - 1] in page;
    }
  }

  /** Prepending keeps every row that is there, adds only rows of unknown numbers, and repeats none. */
  lemma PrependKeepsUnique(current: seq<LogRow>, older: seq<LogRow>)
    requires UniqueNumbers(current) && UniqueNumbers(older)
    ensures UniqueNumbers(PrependOlderPage(current, older))
    ensures forall row :: row in PrependOlderPage(current, older) <==>
            row in current || (row in older && row.number !in NumbersIn(current))
  {
    var unknown := Filter(older, (row: LogRow) => row.number !in NumbersIn(current));
    forall x, y | x in unknown && y in current
      ensures !SameNumber(x, y)
    {
      assert y.number in NumbersIn(current);
    }
    JoinUnique(unknown, current);
  }

  // The order of the rows.

  /** `at` are the places of the rows that are kept. */
  ghost predicate PlacesOf(rows: seq<LogRow>, keep: LogRow -> bool, at: seq<nat>) {
    forall i: nat :: i < |rows| ==> (i in at <==> keep(rows[i]))
  }

  lemma PlacesFirst(first: LogRow, tail: seq<LogRow>, rows: seq<LogRow>, keep: LogRow -> bool, others: seq<nat>,
                    at: seq<nat>)
    requires rows == [first] + tail && PlacesOf(tail, keep, others)
    requires at == (if keep(first) then [0] else []) + Later(others)
    ensures PlacesOf(rows, keep, at)
  {
    LaterHolds(others, 0);
    forall i: nat | i < |rows|
      ensures i in at <==> keep(rows[i])
    {
      if i > 0 {
        LaterHolds(others, i - 1);
        assert rows[i] == tail[i - 1];
      }
    }
  }

  lemma {:induction false} FilterInOrder(rows: seq<LogRow>, keep: LogRow -> bool) returns (at: seq<nat>)
    ensures Subsequence(Filter(rows, keep), rows, at) && PlacesOf(rows, keep, at)
  {
    if rows == [] {
      at := [];
    } else {
      var first, tail := rows[0], rows[1..];
      var others := FilterInOrder(tail, keep);
      LaterSubsequence(Filter(tail, keep), rows, others);
      at := (if keep(first) then [0] else []) + Later(others);
      assert rows == [first] + tail;
      PlacesFirst(first, tail, rows, keep, others, at);
    }
  }

  /** The row has a number above that of the last row of the page, or one that is not negative if that row has none. */
  predicate IsNewer(row: LogRow, page: seq<LogRow>) {
    && row.number.Some?
    && if page != [] && page[|page| - 1].number.Some? then row.number.value > page[|page| - 1].number.value
       else row.number.value >= 0
  }

  /** Behind the page stand, in their order, exactly the newer rows. */
  lemma MergeInOrder(current: seq<LogRow>, page: seq<LogRow>) returns (newer: seq<LogRow>, at: seq<nat>)
    ensures MergeLoadedPage(current, page) == page + newer && Subsequence(newer, current, at)
    ensures forall i :: 0 <= i < |current| ==>
      (i in at <==> IsNewer(current[i], page))
  {
    var tail := if page != [] && page[|page| - 1].number.Some? then page[|page| - 1].number.value else -1;
    var keep := (row: LogRow) => row.number.Some? && row.number.value > tail;
    newer := Filter(current, keep);
    at := FilterInOrder(current, keep);
  }

  /**
   In front of the rows that are there stand, in their order, exactly the older ones of a number
   that is not among them.
   */
  lemma PrependInOrder(current: seq<LogRow>, older: seq<LogRow>) returns (added: seq<LogRow>, at: seq<nat>)
    ensures PrependOlderPage(current, older) == added + current && Subsequence(added, older, at)
    ensures forall i :: 0 <= i < |older| ==>
              (i in at <==> forall row :: row in current ==> row.number != older[i].number)
  {
    var keep := (row: LogRow) => row.number !in NumbersIn(current);
    added := Filter(older, keep);
    at := FilterInOrder(older, keep);
  }
}
