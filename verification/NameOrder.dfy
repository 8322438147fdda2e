/** Sorting names as Array.prototype.sort does: by their code units. */
module NameOrder {
  predicate Less(a: string, b: string) {
    if b == "" then false
    else a == "" || a[0] < b[0] || (a[0] == b[0] && Less(a[1..], b[1..]))
  }

  /** Up to place `k` the names are the same; there `a` ends, or has the smaller character. */
  predicate FirstDifference(a: string, b: string, k: nat) {
    k <= |a| && k < |b| && a[..k] == b[..k] && (k == |a| || a[k] < b[k])
  }

  lemma {:induction false} LessExactly(a: string, b: string)
    ensures Less(a, b) <==> exists k: nat :: FirstDifference(a, b, k)
  {
    if b != "" && (a == "" || a[0] < b[0]) {
      assert FirstDifference(a, b, 0);
    } else if a != "" && b != "" && a[0] == b[0] {
      LessExactly(a[1..], b[1..]);
      if k: nat :| FirstDifference(a[1..], b[1..], k) {
        assert a[..k + 1] == [a[0]] + a[1..][..k] && b[..k + 1] == [b[0]] + b[1..][..k];
        assert FirstDifference(a, b, k + 1);
      }
      if k: nat :| FirstDifference(a, b, k) {
        DifferenceBehind(a, b, k);
      }
    } else if k: nat :| FirstDifference(a, b, k) {
      if a != "" {
        DifferenceInFront(a, b, k);
      }
    }
  }

  lemma DifferenceInFront(a: string, b: string, k: nat)
    requires FirstDifference(a, b, k) && a != ""
    ensures if k == 0 then a[0] < b[0] else a[0] == b[0]
  {
    if k > 0 {
      assert a[0] == a[..k][0] && b[0] == b[..k][0];
    }
  }

  lemma DifferenceBehind(a: string, b: string, k: nat)
    requires FirstDifference(a, b, k) && a != "" && a[0] == b[0]
    ensures k > 0 && FirstDifference(a[1..], b[1..], k - 1)
  {
    assert a[1..][..k - 1] == a[..k][1..] && b[1..][..k - 1] == b[..k][1..];
  }

  lemma {:induction false} LessIsTotal(a: string, b: string)
    ensures a == b || Less(a, b) || Less(b, a)
  {
    if a != "" && b != "" && a[0] == b[0] {
      LessIsTotal(a[1..], b[1..]);
      if a[1..] == b[1..] {
        assert a == [a[0]] + a[1..] && b == [b[0]] + b[1..];
      }
    }
  }

  lemma {:induction false} LessIsTransitive(a: string, b: string, c: string)
    requires Less(a, b) && Less(b, c)
    ensures Less(a, c)
  {
    if a != "" && a[0] == b[0] == c[0] {
      LessIsTransitive(a[1..], b[1..], c[1..]);
    }
  }

  lemma {:induction false} LessIsStrict(a: string)
    ensures !Less(a, a)
  {
    if a != "" {
      LessIsStrict(a[1..]);
    }
  }

  predicate Ascending(list: seq<string>) {
    forall i, j :: 0 <= i < j < |list| ==> Less(list[i], list[j])
  }

  function Insert(name: string, list: seq<string>): seq<string> {
    if list == [] || Less(name, list[0]) then [name] + list else [list[0]] + Insert(name, list[1..])
  }

  function Sort(list: seq<string>): seq<string> {
    if list == [] then [] else Insert(list[0], Sort(list[1..]))
  }

  lemma {:induction false} InsertKeeps(name: string, list: seq<string>)
    ensures multiset(Insert(name, list)) == multiset(list) + multiset{name}
  {
    if list != [] && !Less(name, list[0]) {
      assert list == [list[0]] + list[1..];
      InsertKeeps(name, list[1..]);
    }
  }

  lemma {:induction false} InsertAscends(name: string, list: seq<string>)
    requires Ascending(list) && name !in list
    ensures Ascending(Insert(name, list))
  {
    if list != [] && !Less(name, list[0]) {
      InsertAscends(name, list[1..]);
      InsertKeeps(name, list[1..]);
      LessIsTotal(name, list[0]);
      var more := Insert(name, list[1..]);
      forall i | 0 <= i < |more|
        ensures Less(list[0], more[i])
      {
        assert more[i] in multiset(more);
      }
    } else if list != [] {
      forall i | 0 < i < |list|
        ensures Less(name, list[i])
      {
        LessIsTransitive(name, list[0], list[i]);
      }
    }
  }

  /** Without repetitions, the first of equal names kept: [...new Set(list)]. */
  function Dedupe(list: seq<string>): (r: seq<string>)
    ensures forall name :: name in r <==> name in list
    ensures forall i, j :: 0 <= i < j < |r| ==> r[i] != r[j]
  {
    if list == [] then []
    else
      var n := |list| - 1;
      var before := Dedupe(list[..n]);
      if list[n] in before then before else before + [list[n]]
  }

  /** Sorting keeps the names; distinct names end up ascending. */
  lemma {:induction false} SortRight(list: seq<string>)
    ensures multiset(Sort(list)) == multiset(list)
    ensures (forall i, j :: 0 <= i < j < |list| ==> list[i] != list[j]) ==> Ascending(Sort(list))
  {
    if list != [] {
      assert list == [list[0]] + list[1..];
      SortRight(list[1..]);
      InsertKeeps(list[0], Sort(list[1..]));
      assert list[0] in multiset(list[1..]) <==> list[0] in list[1..];
      if forall i, j :: 0 <= i < j < |list| ==> list[i] != list[j] {
        InsertAscends(list[0], Sort(list[1..]));
      }
    }
  }

  /** `list` holds the names of the set, each once, in order. */
  ghost predicate Listing(list: seq<string>, names: set<string>) {
    Ascending(list) && forall name :: name in list <==> name in names
  }

  lemma SortLists(list: seq<string>, names: set<string>)
    requires forall i, j :: 0 <= i < j < |list| ==> list[i] != list[j]
    requires forall name :: name in list <==> name in names
    ensures Listing(Sort(list), names)
  {
    SortRight(list);
    forall name: string
      ensures name in Sort(list) <==> name in list
    {
      assert name in multiset(list) <==> name in list;
      assert name in multiset(Sort(list)) <==> name in Sort(list);
    }
  }
}
