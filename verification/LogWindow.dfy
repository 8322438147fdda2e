/** The rows of a followed log: rows replace earlier rows of the same sequence number, new rows push out the oldest. */
module LogWindow {
  import opened Basics
  import NameOrder

  datatype LogRow = LogRow(number: Option<int>, timestamp: string, message: string)

  /** A row that can be replaced: its sequence number is positive. */
  predicate Numbered(row: LogRow) {
    row.number.Some? && row.number.value > 0
  }

  predicate SameNumber(a: LogRow, b: LogRow) {
    Numbered(a) && a.number == b.number
  }

  /** The order of the JavaScript operator >= on strings. */
  predicate AtLeast(a: string, b: string) {
    if b == "" then true
    else if a == "" then false
    else a[0] > b[0] || (a[0] == b[0] && AtLeast(a[1..], b[1..]))
  }

  predicate Accepts(since: string, event: LogRow) {
    since == "" || AtLeast(event.timestamp, since)
  }

  function Accepted(events: seq<LogRow>, since: string): seq<LogRow> {
    if events == [] then []
    else (if Accepts(since, events[0]) then [events[0]] else []) + Accepted(events[1..], since)
  }

  // What following means, one event at a time.

  /** Every row with the number of `event` becomes `event`. */
  function Replaced(rows: seq<LogRow>, event: LogRow): (r: seq<LogRow>)
    ensures |r| == |rows|
    ensures forall i :: 0 <= i < |rows| ==> r[i] == if SameNumber(event, rows[i]) then event else rows[i]
  {
    if rows == [] then []
    else [if SameNumber(event, rows[0]) then event else rows[0]] + Replaced(rows[1..], event)
  }

  predicate Has(rows: seq<LogRow>, event: LogRow) {
    exists i :: 0 <= i < |rows| && SameNumber(event, rows[i])
  }

  function Upsert(rows: seq<LogRow>, event: LogRow): seq<LogRow> {
    if Has(rows, event) then Replaced(rows, event) else rows + [event]
  }

  function UpsertAll(rows: seq<LogRow>, events: seq<LogRow>): seq<LogRow> {
    if events == [] then rows
    else Upsert(UpsertAll(rows, events[..|events| - 1]), events[|events| - 1])
  }

  function LastRows(rows: seq<LogRow>, limit: nat): seq<LogRow> {
    if |rows| > limit then rows[|rows| - limit..] else rows
  }

  function Limit(cap: int): nat {
    if cap > 1 then cap else 1
  }

  /** The rows after `events`: the cap applies only when a row was appended. */
  function Follow(rows: seq<LogRow>, events: seq<LogRow>, cap: int): seq<LogRow> {
    var all := UpsertAll(rows, events);
    if |all| == |rows| then all else LastRows(all, Limit(cap))
  }

  lemma UpsertNext(rows: seq<LogRow>, events: seq<LogRow>, i: nat)
    requires i < |events|
    ensures UpsertAll(rows, events[..i + 1]) == Upsert(UpsertAll(rows, events[..i]), events[i])
  {
    assert events[..i + 1][..i] == events[..i];
  }

  // The batched form.

  function MergedRow(row: LogRow, replacements: map<int, LogRow>): LogRow {
    if row.number.Some? && row.number.value in replacements then replacements[row.number.value] else row
  }

  /** current.map: the replacement of each row, if it has one. */
  function Merged(rows: seq<LogRow>, replacements: map<int, LogRow>): (r: seq<LogRow>)
    ensures |r| == |rows|
    ensures forall i :: 0 <= i < |rows| ==> r[i] == MergedRow(rows[i], replacements)
  {
    if rows == [] then [] else [MergedRow(rows[0], replacements)] + Merged(rows[1..], replacements)
  }

  function KnownNumbers(rows: seq<LogRow>): (known: set<int>)
    ensures forall n :: n in known <==> exists i :: 0 <= i < |rows| && Numbered(rows[i]) && rows[i].number.value == n
  {
    set i | 0 <= i < |rows| && Numbered(rows[i]) :: rows[i].number.value
  }

  ghost predicate Batch(known: set<int>, replacements: map<int, LogRow>, added: seq<LogRow>, indexes: map<int, nat>) {
    && (forall n :: n in replacements ==> n > 0 && n in known && replacements[n].number == Some(n))
    && (forall n :: n in indexes ==>
          n > 0 && n !in known && indexes[n] < |added| && added[indexes[n]].number == Some(n))
    && (forall k :: 0 <= k < |added| && Numbered(added[k]) ==>
          added[k].number.value in indexes && indexes[added[k].number.value] == k)
  }

  lemma ReplacedParts(a: seq<LogRow>, b: seq<LogRow>, event: LogRow)
    ensures Replaced(a + b, event) == Replaced(a, event) + Replaced(b, event)
  {
  }

  lemma ReplacedNone(rows: seq<LogRow>, event: LogRow)
    requires !Has(rows, event)
    ensures Replaced(rows, event) == rows
  {
    assert forall i :: 0 <= i < |rows| ==> !SameNumber(event, rows[i]);
  }

  lemma HasInParts(a: seq<LogRow>, b: seq<LogRow>, event: LogRow)
    ensures Has(a + b, event) == (Has(a, event) || Has(b, event))
  {
    if i :| 0 <= i < |a| && SameNumber(event, a[i]) {
      assert (a + b)[i] == a[i];
    }
    if i :| 0 <= i < |b| && SameNumber(event, b[i]) {
      assert (a + b)[|a| + i] == b[i];
    }
    if i :| 0 <= i < |a + b| && SameNumber(event, (a + b)[i]) {
      assert (a + b)[i] == if i < |a| then a[i] else b[i - |a|];
    }
  }

  lemma MergeRow(row: LogRow, replacements: map<int, LogRow>, event: LogRow)
    requires Numbered(event) && forall n :: n in replacements ==> replacements[n].number == Some(n)
    ensures MergedRow(row, replacements[event.number.value := event])
         == if SameNumber(event, MergedRow(row, replacements)) then event else MergedRow(row, replacements)
  {
    var shown := MergedRow(row, replacements);
    assert row.number.Some? ==> (shown.number == event.number <==> row.number.value == event.number.value);
  }

  lemma {:induction false} MergeOne(rows: seq<LogRow>, replacements: map<int, LogRow>, event: LogRow)
    requires Numbered(event) && forall n :: n in replacements ==> replacements[n].number == Some(n)
    ensures Replaced(Merged(rows, replacements), event) == Merged(rows, replacements[event.number.value := event])
  {
    if rows != [] {
      MergeRow(rows[0], replacements, event);
      MergeOne(rows[1..], replacements, event);
    }
  }

  lemma OnlyInCurrent(current: seq<LogRow>, known: set<int>, replacements: map<int, LogRow>, added: seq<LogRow>,
                      indexes: map<int, nat>, event: LogRow)
    requires known == KnownNumbers(current) && Batch(known, replacements, added, indexes)
    requires Numbered(event) && event.number.value in known
    ensures Has(Merged(current, replacements), event) && !Has(added, event)
  {
    var i :| 0 <= i < |current| && Numbered(current[i]) && current[i].number.value == event.number.value;
    assert SameNumber(event, Merged(current, replacements)[i]);
  }

  lemma ReplaceKnown(current: seq<LogRow>, known: set<int>, replacements: map<int, LogRow>, added: seq<LogRow>,
                     indexes: map<int, nat>, event: LogRow)
    requires known == KnownNumbers(current) && Batch(known, replacements, added, indexes)
    requires Numbered(event) && event.number.value in known
    ensures Upsert(Merged(current, replacements) + added, event) ==
            Merged(current, replacements[event.number.value := event]) + added
  {
    var merged := Merged(current, replacements);
    OnlyInCurrent(current, known, replacements, added, indexes, event);
    MergeOne(current, replacements, event);
    HasInParts(merged, added, event);
    ReplacedParts(merged, added, event);
    ReplacedNone(added, event);
  }

  lemma ReplaceFresh(current: seq<LogRow>, known: set<int>, replacements: map<int, LogRow>, added: seq<LogRow>,
                     indexes: map<int, nat>, event: LogRow)
    requires known == KnownNumbers(current) && Batch(known, replacements, added, indexes)
    requires Numbered(event) && event.number.value !in known && event.number.value in indexes
    ensures Upsert(Merged(current, replacements) + added, event) ==
            Merged(current, replacements) + added[indexes[event.number.value] := event]
  {
    var merged, k := Merged(current, replacements), indexes[event.number.value];
    NotInCurrent(current, known, replacements, added, indexes, event);
    assert SameNumber(event, added[k]);
    HasInParts(merged, added, event);
    ReplacedParts(merged, added, event);
    ReplacedNone(merged, event);
    assert Replaced(added, event) == added[k := event];
  }

  lemma NotInCurrent(current: seq<LogRow>, known: set<int>, replacements: map<int, LogRow>, added: seq<LogRow>,
                     indexes: map<int, nat>, event: LogRow)
    requires known == KnownNumbers(current) && Batch(known, replacements, added, indexes)
    requires Numbered(event) ==> event.number.value !in known
    ensures !Has(Merged(current, replacements), event)
  {
  }

  lemma AppendFresh(current: seq<LogRow>, known: set<int>, replacements: map<int, LogRow>, added: seq<LogRow>,
                    indexes: map<int, nat>, event: LogRow)
    requires known == KnownNumbers(current) && Batch(known, replacements, added, indexes)
    requires Numbered(event) ==> event.number.value !in known && event.number.value !in indexes
    ensures Upsert(Merged(current, replacements) + added, event) == Merged(current, replacements) + (added + [event])
  {
    var merged := Merged(current, replacements);
    NotInCurrent(current, known, replacements, added, indexes, event);
    assert !Has(added, event);
    HasInParts(merged, added, event);
    ConcatAssoc(merged, added, [event]);
  }

  /** The two ways in which the cap is applied to the old and the new rows. */
  lemma LastOfBoth(merged: seq<LogRow>, added: seq<LogRow>, limit: nat)
    ensures |added| >= limit ==> LastRows(merged + added, limit) == added[|added| - limit..]
    ensures |added| < limit ==>
              LastRows(merged + added, limit) ==
                merged[if |merged| + |added| > limit then |merged| + |added| - limit else 0..] + added
  {
  }

  lemma BatchOfKnown(known: set<int>, replacements: map<int, LogRow>, added: seq<LogRow>, indexes: map<int, nat>,
                     event: LogRow)
    requires Batch(known, replacements, added, indexes) && Numbered(event) && event.number.value in known
    ensures Batch(known, replacements[event.number.value := event], added, indexes)
  {
  }

  lemma BatchOfReplaced(known: set<int>, replacements: map<int, LogRow>, added: seq<LogRow>, indexes: map<int, nat>,
                        event: LogRow)
    requires Batch(known, replacements, added, indexes) && Numbered(event) && event.number.value in indexes
    ensures Batch(known, replacements, added[indexes[event.number.value] := event], indexes)
  {
  }

  lemma BatchOfNew(known: set<int>, replacements: map<int, LogRow>, added: seq<LogRow>, indexes: map<int, nat>,
                   event: LogRow)
    requires Batch(known, replacements, added, indexes)
    requires Numbered(event) ==> event.number.value !in known && event.number.value !in indexes
    ensures Numbered(event) ==> Batch(known, replacements, added + [event], indexes[event.number.value := |added|])
    ensures !Numbered(event) ==> Batch(known, replacements, added + [event], indexes)
  {
  }

  /** The loop over the accepted events. */
  method Collect(ghost current: seq<LogRow>, known: set<int>, accepted: seq<LogRow>)
    returns (replacements: map<int, LogRow>, added: seq<LogRow>)
    requires known == KnownNumbers(current)
    ensures UpsertAll(current, accepted) == Merged(current, replacements) + added
  {
    replacements, added := map[], [];
    var indexes: map<int, nat> := map[];
    assert Merged(current, replacements) == current;
    for i := 0 to |accepted|
      invariant Batch(known, replacements, added, indexes)
      invariant UpsertAll(current, accepted[..i]) == Merged(current, replacements) + added
    {
      var event := accepted[i];
      UpsertNext(current, accepted, i);
      if Numbered(event) && event.number.value in known {
        ReplaceKnown(current, known, replacements, added, indexes, event);
        BatchOfKnown(known, replacements, added, indexes, event);
        replacements := replacements[event.number.value := event];
      } else if Numbered(event) {
        var n := event.number.value;
        if n !in indexes {
          AppendFresh(current, known, replacements, added, indexes, event);
          BatchOfNew(known, replacements, added, indexes, event);
          indexes := indexes[n := |added|];
          added := added + [event];
        } else {
          ReplaceFresh(current, known, replacements, added, indexes, event);
          BatchOfReplaced(known, replacements, added, indexes, event);
          added := added[indexes[n] := event];
        }
      } else {
        AppendFresh(current, known, replacements, added, indexes, event);
        BatchOfNew(known, replacements, added, indexes, event);
        added := added + [event];
      }
    }
    assert accepted[..|accepted|] == accepted;
  }

  method AppendFollowEvents(current: seq<LogRow>, incoming: seq<LogRow>, since: string, cap: int)
    returns (rows: seq<LogRow>)
    ensures rows == Follow(current, Accepted(incoming, since), cap)
  {
    var accepted := Accepted(incoming, since);
    if accepted == [] {
      return current;
    }
    var known := KnownNumbers(current);
    var replacements, added := Collect(current, known, accepted);
    assert replacements == map[] ==> Merged(current, replacements) == current;
    var merged := if replacements == map[] then current else Merged(current, replacements);
    if added == [] {
      return merged;
    }
    var limit := Limit(cap);
    LastOfBoth(merged, added, limit);
    if |added| >= limit {
      return added[|added| - limit..];
    }
    var drop := if |merged| + |added| > limit then |merged| + |added| - limit else 0;
    rows := merged[drop..] + added;
  }

  /** Time stamps are compared as names are sorted: a stamp is accepted unless it is before the limit. */
  lemma {:induction false} AtLeastIsNotBefore(a: string, b: string)
    ensures AtLeast(a, b) <==> !NameOrder.Less(a, b)
  {
    if a != "" && b != "" && a[0] == b[0] {
      AtLeastIsNotBefore(a[1..], b[1..]);
    }
  }

  /** `at` lists, in order, places of `events` at which `chosen` stands. */
  predicate Subsequence(chosen: seq<LogRow>, events: seq<LogRow>, at: seq<nat>) {
    && |at| == |chosen|
    && (forall k :: 0 <= k < |at| ==> at[k] < |events| && chosen[k] == events[at[k]])
    && (forall k, l :: 0 <= k < l < |at| ==> at[k] < at[l])
  }

  function Later(at: seq<nat>): (later: seq<nat>)
    ensures |later| == |at| && forall k :: 0 <= k < |at| ==> later[k] == at[k] + 1
  {
    seq(|at|, k requires 0 <= k < |at| => at[k] + 1)
  }

  lemma LaterHolds(at: seq<nat>, i: nat)
    ensures i + 1 in Later(at) <==> i in at
    ensures 0 !in Later(at)
  {
    if i in at {
      var k :| 0 <= k < |at| && at[k] == i;
      assert Later(at)[k] == i + 1;
    }
  }

  lemma LaterSubsequence(chosen: seq<LogRow>, events: seq<LogRow>, at: seq<nat>)
    requires events != [] && Subsequence(chosen, events[1..], at)
    ensures Subsequence(chosen, events, Later(at))
    ensures Subsequence([events[0]] + chosen, events, [0] + Later(at))
  {
  }

  /** Accepted are, in order and each once, exactly the events that are not before `since`. */
  lemma {:induction false} AcceptedExactly(events: seq<LogRow>, since: string) returns (at: seq<nat>)
    ensures Subsequence(Accepted(events, since), events, at)
    ensures forall i :: 0 <= i < |events| ==> (i in at <==> since == "" || !NameOrder.Less(events[i].timestamp, since))
  {
    if events == [] {
      return [];
    }
    var others := AcceptedExactly(events[1..], since);
    LaterSubsequence(Accepted(events[1..], since), events, others);
    AtLeastIsNotBefore(events[0].timestamp, since);
    LaterHolds(others, 0);
    at := (if Accepts(since, events[0]) then [0] else []) + Later(others);
    forall i | 0 < i < |events|
      ensures i in at <==> since == "" || !NameOrder.Less(events[i].timestamp, since)
    {
      LaterHolds(others, i - 1);
      assert events[i] == events[1..][i - 1];
      assert i in at <==> i in Later(others);
    }
  }

  // What following guarantees.

  /** No two rows share a positive sequence number. */
  predicate UniqueNumbers(rows: seq<LogRow>) {
    forall i, j :: 0 <= i < j < |rows| ==> !SameNumber(rows[i], rows[j])
  }

  lemma UpsertKeepsUnique(rows: seq<LogRow>, event: LogRow)
    requires UniqueNumbers(rows)
    ensures UniqueNumbers(Upsert(rows, event))
  {
  }

  lemma {:induction false} UpsertAllKeepsUnique(rows: seq<LogRow>, events: seq<LogRow>)
    requires UniqueNumbers(rows)
    ensures UniqueNumbers(UpsertAll(rows, events))
  {
    if events != [] {
      UpsertAllKeepsUnique(rows, events[..|events| - 1]);
      UpsertKeepsUnique(UpsertAll(rows, events[..|events| - 1]), events[|events| - 1]);
    }
  }

  lemma FollowKeepsUnique(rows: seq<LogRow>, events: seq<LogRow>, cap: int)
    requires UniqueNumbers(rows)
    ensures UniqueNumbers(Follow(rows, events, cap))
  {
    UpsertAllKeepsUnique(rows, events);
  }

  /** Index of the last event with the number of `row`, if there is one. */
  ghost predicate IsLatest(row: LogRow, events: seq<LogRow>, k: nat) {
    k < |events| && SameNumber(row, events[k]) && forall j :: k < j < |events| ==> !SameNumber(row, events[j])
  }

  /** The latest event of a number is what the row of that number shows, and no row changes its place. */
  lemma {:induction false} LatestIsShown(rows: seq<LogRow>, events: seq<LogRow>, i: nat)
    requires i < |UpsertAll(rows, events)|
    ensures var row := UpsertAll(rows, events)[i];
            && (i < |rows| ==> row.number == rows[i].number)
            && (forall k: nat :: IsLatest(row, events, k) ==> row == events[k])
            && ((forall j :: 0 <= j < |events| ==> !SameNumber(row, events[j])) ==>
                   (i < |rows| && row == rows[i]) || row in events)
  {
    if events != [] {
      var before, event := events[..|events| - 1], events[|events| - 1];
      var all := UpsertAll(rows, before);
      GrowsOnly(rows, before);
      if i < |all| {
        LatestIsShown(rows, before, i);
        forall k: nat | IsLatest(Upsert(all, event)[i], events, k)
          ensures Upsert(all, event)[i] == events[k]
        {
          if k < |events| - 1 {
            assert IsLatest(all[i], before, k);
          }
        }
      }
    }
  }

  lemma {:induction false} GrowsOnly(rows: seq<LogRow>, events: seq<LogRow>)
    ensures |rows| <= |UpsertAll(rows, events)| <= |rows| + |events|
  {
    if events != [] {
      GrowsOnly(rows, events[..|events| - 1]);
    }
  }

  // Which rows there are.

  /** The event makes a row of its own: nothing before it has its number. */
  ghost predicate IsNew(rows: seq<LogRow>, events: seq<LogRow>, k: nat) {
    k < |events| && !Has(rows, events[k]) && !Has(events[..k], events[k])
  }

  ghost predicate Increasing(at: seq<nat>) {
    forall k, l :: 0 <= k < l < |at| ==> at[k] < at[l]
  }

  /**
   Behind the old rows stands one row for each new event in turn, of its number, or the event
   itself if it has none.
   */
  ghost predicate AppendedAs(rows: seq<LogRow>, events: seq<LogRow>, all: seq<LogRow>, at: seq<nat>) {
    && |all| == |rows| + |at| && Increasing(at)
    && (forall i :: 0 <= i < |rows| ==> all[i].number == rows[i].number)
    && (forall m :: 0 <= m < |at| ==> at[m] < |events| && StandsFor(all[|rows| + m], events[at[m]]))
    && (forall k :: 0 <= k < |events| ==> (k in at <==> IsNew(rows, events, k)))
  }

  predicate StandsFor(row: LogRow, event: LogRow) {
    row == event || SameNumber(event, row)
  }

  lemma HasByNumbers(a: seq<LogRow>, b: seq<LogRow>, event: LogRow)
    requires |a| == |b| && forall i :: 0 <= i < |a| ==> a[i].number == b[i].number
    ensures Has(a, event) == Has(b, event)
  {
    if Has(a, event) {
      var i :| 0 <= i < |a| && SameNumber(event, a[i]);
      assert SameNumber(event, b[i]);
    }
    if Has(b, event) {
      var i :| 0 <= i < |b| && SameNumber(event, b[i]);
      assert SameNumber(event, a[i]);
    }
  }

  /** A number is among the rows if it was, or came with an event. */
  lemma {:induction false} HasAfter(rows: seq<LogRow>, events: seq<LogRow>, event: LogRow)
    ensures Has(UpsertAll(rows, events), event) <==> Has(rows, event) || Has(events, event)
  {
    if events != [] {
      var before, last := events[..|events| - 1], events[|events| - 1];
      HasAfter(rows, before, event);
      HasSnoc(before, last, event);
      assert events == before + [last];
      HasUpserted(UpsertAll(rows, before), last, event);
    }
  }

  lemma HasSnoc(events: seq<LogRow>, last: LogRow, event: LogRow)
    ensures Has(events + [last], event) <==> Has(events, event) || SameNumber(event, last)
  {
    if Has(events, event) {
      var i :| 0 <= i < |events| && SameNumber(event, events[i]);
      assert (events + [last])[i] == events[i];
    }
    assert (events + [last])[|events|] == last;
  }

  lemma HasUpserted(rows: seq<LogRow>, last: LogRow, event: LogRow)
    ensures Has(Upsert(rows, last), event) <==> Has(rows, event) || SameNumber(event, last)
  {
    if Has(rows, last) {
      HasByNumbers(Replaced(rows, last), rows, event);
      if SameNumber(event, last) {
        var i :| 0 <= i < |rows| && SameNumber(last, rows[i]);
        assert SameNumber(event, rows[i]);
      }
    } else {
      HasSnoc(rows, last, event);
    }
  }

  lemma NewSnoc(rows: seq<LogRow>, before: seq<LogRow>, last: LogRow, k: nat)
    requires k <= |before|
    ensures IsNew(rows, before + [last], k) <==>
      if k < |before| then IsNew(rows, before, k) else !Has(rows, last) && !Has(before, last)
  {
    assert (before + [last])[..k] == before[..k];
  }

  /** Every event is shown by a row or replaced by a later one of its number; new rows stand in the order of arrival. */
  lemma {:induction false} AppendedInOrder(rows: seq<LogRow>, events: seq<LogRow>) returns (at: seq<nat>)
    ensures AppendedAs(rows, events, UpsertAll(rows, events), at)
  {
    if events == [] {
      return [];
    }
    var before, last := events[..|events| - 1], events[|events| - 1];
    assert events == before + [last];
    var known := AppendedInOrder(rows, before);
    HasAfter(rows, before, last);
    var all := UpsertAll(rows, before);
    if Has(all, last) {
      at := known;
      ReplaceOne(rows, before, last, all, at);
    } else {
      at := known + [|before|];
      AppendOne(rows, before, last, all, known, at);
    }
  }

  lemma NewIsNotThere(rows: seq<LogRow>, before: seq<LogRow>, last: LogRow, all: seq<LogRow>)
    requires Has(all, last) <==> Has(rows, last) || Has(before, last)
    ensures forall k: nat :: k <= |before| ==>
      (IsNew(rows, before + [last], k) <==> if k < |before| then IsNew(rows, before, k) else !Has(all, last))
  {
    forall k: nat | k <= |before|
      ensures IsNew(rows, before + [last], k) <==> if k < |before| then IsNew(rows, before, k) else !Has(all, last)
    {
      NewSnoc(rows, before, last, k);
    }
  }

  lemma ReplacedStands(row: LogRow, event: LogRow, last: LogRow)
    requires StandsFor(row, event)
    ensures StandsFor(if SameNumber(last, row) then last else row, event)
  {
  }

  lemma ReplaceOne(rows: seq<LogRow>, before: seq<LogRow>, last: LogRow, all: seq<LogRow>, at: seq<nat>)
    requires AppendedAs(rows, before, all, at) && Has(all, last) && (Has(rows, last) || Has(before, last))
    ensures AppendedAs(rows, before + [last], Replaced(all, last), at)
  {
    var events := before + [last];
    NewIsNotThere(rows, before, last, all);
    forall m | 0 <= m < |at|
      ensures at[m] < |events| && StandsFor(Replaced(all, last)[|rows| + m], events[at[m]])
    {
      ReplacedStands(all[|rows| + m], before[at[m]], last);
    }
    assert |before| !in at;
  }

  lemma AppendOne(rows: seq<LogRow>, before: seq<LogRow>, last: LogRow, all: seq<LogRow>, so: seq<nat>, at: seq<nat>)
    requires AppendedAs(rows, before, all, so) && !Has(all, last) && !Has(rows, last) && !Has(before, last)
    requires at == so + [|before|]
    ensures AppendedAs(rows, before + [last], all + [last], at)
  {
    var events, more := before + [last], all + [last];
    NewIsNotThere(rows, before, last, all);
    forall m | 0 <= m < |at|
      ensures at[m] < |events| && StandsFor(more[|rows| + m], events[at[m]])
    {
      if m < |so| {
        assert events[so[m]] == before[so[m]] && more[|rows| + m] == all[|rows| + m];
      }
    }
  }

  /** The cap counts only when a row came in, and then the last rows stay: as many as the cap, or one. */
  lemma FollowExactly(rows: seq<LogRow>, events: seq<LogRow>, cap: int)
    ensures var all, shown := UpsertAll(rows, events), Follow(rows, events, cap);
      && |shown| <= |all| && shown == all[|all| - |shown|..]
      && (|all| == |rows| ==> shown == all)
      && (|all| > |rows| ==> |shown| == if |all| <= cap || |all| <= 1 then |all| else if cap > 1 then cap else 1)
  {
    GrowsOnly(rows, events);
  }
}
