/** A limiter that admits at most `limit` acquisitions of a key within any stretch of `windowMs`. */
module SlidingWindow {
  import opened Basics

  /** The stamps after the cutoff, in order. */
  function Newer(stamps: seq<int>, cutoff: int): seq<int> {
    if stamps == [] then []
    else
      var n := |stamps| - 1;
      Newer(stamps[..n], cutoff) + if stamps[n] > cutoff then [stamps[n]] else []
  }

  /** How many stamps lie in the half-open stretch (from, to]. */
  function Within(stamps: seq<int>, from: int, to: int): nat {
    if stamps == [] then 0
    else
      var n := |stamps| - 1;
      Within(stamps[..n], from, to) + if from < stamps[n] <= to then 1 else 0
  }

  lemma NewerPush(stamps: seq<int>, cutoff: int, stamp: int)
    ensures Newer(stamps + [stamp], cutoff) == Newer(stamps, cutoff) + if stamp > cutoff then [stamp] else []
  {
    assert (stamps + [stamp])[..|stamps|] == stamps;
  }

  lemma WithinPush(stamps: seq<int>, from: int, to: int, stamp: int)
    ensures Within(stamps + [stamp], from, to) == Within(stamps, from, to) + if from < stamp <= to then 1 else 0
  {
    assert (stamps + [stamp])[..|stamps|] == stamps;
  }

  predicate Increasing(at: seq<nat>) {
    forall k, l :: 0 <= k < l < |at| ==> at[k] < at[l]
  }

  /** `kept` are, in order and each once, exactly the stamps after the cutoff; `at` are their places. */
  ghost predicate AreKept(stamps: seq<int>, cutoff: int, kept: seq<int>, at: seq<nat>) {
    && |at| == |kept| && Increasing(at)
    && (forall k :: 0 <= k < |at| ==> at[k] < |stamps| && kept[k] == stamps[at[k]])
    && (forall i: nat :: i < |stamps| ==> (i in at <==> stamps[i] > cutoff))
  }

  lemma KeptNext(stamps: seq<int>, stamp: int, cutoff: int, kept: seq<int>, at: seq<nat>)
    requires AreKept(stamps, cutoff, kept, at)
    ensures stamp > cutoff ==> AreKept(stamps + [stamp], cutoff, kept + [stamp], at + [|stamps|])
    ensures stamp <= cutoff ==> AreKept(stamps + [stamp], cutoff, kept, at)
  {
    var more := stamps + [stamp];
    assert |stamps| !in at;
    assert forall i: nat :: i < |stamps| ==> more[i] == stamps[i];
  }

  lemma {:induction false} NewerExactly(stamps: seq<int>, cutoff: int) returns (at: seq<nat>)
    ensures AreKept(stamps, cutoff, Newer(stamps, cutoff), at)
  {
    if stamps == [] {
      at := [];
    } else {
      var front, last := stamps[..|stamps| - 1], stamps[|stamps| - 1];
      at := NewerExactly(front, cutoff);
      assert stamps == front + [last];
      NewerPush(front, cutoff, last);
      KeptNext(front, last, cutoff, Newer(front, cutoff), at);
      if last > cutoff {
        at := at + [|front|];
      }
    }
  }

  predicate AllUpTo(stamps: seq<int>, now: int) {
    forall i :: 0 <= i < |stamps| ==> stamps[i] <= now
  }

  /** Of a history up to now, what is kept is what lies in the window that ends now. */
  lemma {:induction false} NewerIsWindow(stamps: seq<int>, windowMs: int, now: int)
    requires AllUpTo(stamps, now)
    ensures |Newer(stamps, now - windowMs)| == InWindow(stamps, windowMs, now)
  {
    if stamps != [] {
      NewerIsWindow(stamps[..|stamps| - 1], windowMs, now);
    }
  }

  /** Pruning again with a later cutoff is pruning once. */
  lemma {:induction false} NewerTwice(stamps: seq<int>, early: int, late: int)
    requires early <= late
    ensures Newer(Newer(stamps, early), late) == Newer(stamps, late)
  {
    if stamps != [] {
      var n := |stamps| - 1;
      NewerTwice(stamps[..n], early, late);
      NewerPush(Newer(stamps[..n], early), late, stamps[n]);
      assert stamps[n] <= early ==> Newer(stamps, early) == Newer(stamps[..n], early);
    }
  }

  /** A later stretch that covers the rest of the history holds no more than a pruned list. */
  lemma {:induction false} WithinAtMostNewer(stamps: seq<int>, cutoff: int, from: int, to: int)
    requires cutoff <= from
    ensures Within(stamps, from, to) <= |Newer(stamps, cutoff)|
  {
    if stamps != [] {
      WithinAtMostNewer(stamps[..|stamps| - 1], cutoff, from, to);
    }
  }

  /** How many stamps lie in the window that ends at `t`. */
  function InWindow(stamps: seq<int>, windowMs: int, t: int): nat {
    Within(stamps, t - windowMs, t)
  }

  /** In every window at most `limit` stamps lie. */
  ghost predicate Limited(stamps: seq<int>, windowMs: int, limit: int) {
    forall t :: InWindow(stamps, windowMs, t) <= if limit > 0 then limit else 0
  }

  /** From `bound` on it makes no difference which of the two is pruned. */
  ghost predicate PrunedAlike(stored: seq<int>, history: seq<int>, bound: int) {
    forall cutoff :: cutoff >= bound ==> Newer(stored, cutoff) == Newer(history, cutoff)
  }

  lemma PruneStored(stored: seq<int>, history: seq<int>, bound: int, cutoff: int)
    requires PrunedAlike(stored, history, bound) && bound <= cutoff
    ensures Newer(stored, cutoff) == Newer(history, cutoff) && PrunedAlike(Newer(stored, cutoff), history, cutoff)
  {
    forall late | late >= cutoff
      ensures Newer(Newer(stored, cutoff), late) == Newer(history, late)
    {
      NewerTwice(stored, cutoff, late);
    }
  }

  lemma PushBoth(stored: seq<int>, history: seq<int>, bound: int, stamp: int)
    requires PrunedAlike(stored, history, bound)
    ensures PrunedAlike(stored + [stamp], history + [stamp], bound)
  {
    forall cutoff | cutoff >= bound
      ensures Newer(stored + [stamp], cutoff) == Newer(history + [stamp], cutoff)
    {
      NewerPush(stored, cutoff, stamp);
      NewerPush(history, cutoff, stamp);
    }
  }

  /** One more acquisition, when fewer than `limit` lie in the window before it. */
  lemma AcquireKeepsLimited(stamps: seq<int>, windowMs: int, limit: int, pruned: int, stamp: int)
    requires Limited(stamps, windowMs, limit) && pruned <= stamp
    requires |Newer(stamps, pruned - windowMs)| < limit
    ensures Limited(stamps + [stamp], windowMs, limit)
  {
    forall t: int
      ensures InWindow(stamps + [stamp], windowMs, t) <= limit
    {
      WithinPush(stamps, t - windowMs, t, stamp);
      assert InWindow(stamps, windowMs, t) <= limit;
      if stamp <= t {
        WithinAtMostNewer(stamps, pruned - windowMs, t - windowMs, t);
      }
    }
  }

  datatype Hotspot = Hotspot(key: string, count: nat)

  /** A reading of the clock is not before the one before it. */
  predicate Ticks(start: int, readings: seq<int>, i: nat)
    requires i < |readings|
  {
    (if i == 0 then start else readings[i - 1]) <= readings[i]
  }

  // The table of stamps by key.

  function StampsOf(table: map<string, seq<int>>, key: string): seq<int> {
    if key in table then table[key] else []
  }

  ghost predicate AllPrunedAlike(hits: map<string, seq<int>>, granted: map<string, seq<int>>, bound: int) {
    forall key :: PrunedAlike(StampsOf(hits, key), StampsOf(granted, key), bound)
  }

  ghost predicate AllLimited(granted: map<string, seq<int>>, windowMs: int, limit: int) {
    forall key :: Limited(StampsOf(granted, key), windowMs, limit)
  }

  /** No acquisition lies after `now`. */
  ghost predicate AllKnown(granted: map<string, seq<int>>, now: int) {
    forall key :: AllUpTo(StampsOf(granted, key), now)
  }

  lemma StaysKnown(granted: map<string, seq<int>>, early: int, late: int)
    requires AllKnown(granted, early) && early <= late
    ensures AllKnown(granted, late)
  {
    forall key: string
      ensures AllUpTo(StampsOf(granted, key), late)
    {
      assert AllUpTo(StampsOf(granted, key), early);
    }
  }

  lemma GrantIsKnown(granted: map<string, seq<int>>, key: string, now: int)
    requires AllKnown(granted, now)
    ensures AllKnown(Granted(granted, key, now), now)
  {
    forall k: string
      ensures AllUpTo(StampsOf(Granted(granted, key, now), k), now)
    {
      assert AllUpTo(StampsOf(granted, k), now);
    }
  }

  /** What counts of a key's acquisitions at `now` is what lies in the window that ends then. */
  lemma RecentIsWindow(granted: map<string, seq<int>>, key: string, known: int, now: int, windowMs: int)
    requires AllKnown(granted, known) && known <= now
    ensures |Recent(granted, key, now, windowMs)| == InWindow(StampsOf(granted, key), windowMs, now)
  {
    StaysKnown(granted, known, now);
    assert AllUpTo(StampsOf(granted, key), now);
    NewerIsWindow(StampsOf(granted, key), windowMs, now);
  }

  /** The order after pruning: a key without stamps is gone, any other keeps its place. */
  predicate OrderPruned(before: seq<string>, after: seq<string>, key: string, gone: bool) {
    after == if gone then Without(before, key) else before
  }

  /** The order after granting: a key that had no stamps left comes last. */
  predicate OrderGranted(before: seq<string>, after: seq<string>, key: string, gone: bool) {
    after == if gone then Without(before, key) + [key] else before
  }

  lemma PruneOrder(order: seq<string>, hits: map<string, seq<int>>, key: string, times: seq<int>, cutoff: int)
    requires Lists(order, hits) && times == Newer(StampsOf(hits, key), cutoff)
    ensures times != [] ==> key in order && With(order, key) == order
  {
    if key !in hits {
      assert times == [];
    }
  }

  lemma GrantOrder(before: seq<string>, pruned: seq<string>, key: string, gone: bool)
    requires OrderPruned(before, pruned, key, gone) && (!gone ==> key in before)
    ensures OrderGranted(before, With(pruned, key), key, gone)
  {
  }

  /** `order` lists the keys of the table, each once. */
  ghost predicate Lists(order: seq<string>, hits: map<string, seq<int>>) {
    Distinct(order) && forall key :: key in hits <==> key in order
  }

  predicate Distinct(keys: seq<string>) {
    forall i, j :: 0 <= i < j < |keys| ==> keys[i] != keys[j]
  }

  function Without(keys: seq<string>, key: string): (r: seq<string>)
    ensures forall k :: k in r <==> k in keys && k != key
    ensures Distinct(keys) ==> Distinct(r)
  {
    if keys == [] then []
    else
      var more := Without(keys[1..], key);
      assert Distinct(keys) ==> Distinct(keys[1..]) && keys[0] !in keys[1..];
      if keys[0] == key then more else [keys[0]] + more
  }

  /** All keys but this one, in their order. */
  lemma {:induction false} WithoutExactly(a: seq<string>, key: string, b: seq<string>)
    requires key !in a && key !in b
    ensures Without(a + b, key) == a + b && Without(a + [key] + b, key) == a + b
  {
    if a == [] {
      assert a + b == b && a + [key] + b == [key] + b && ([key] + b)[1..] == b;
      WithoutNone(b, key);
    } else {
      WithoutExactly(a[1..], key, b);
      assert (a + b)[1..] == a[1..] + b && (a + [key] + b)[1..] == a[1..] + [key] + b;
    }
  }

  lemma {:induction false} WithoutNone(keys: seq<string>, key: string)
    requires key !in keys
    ensures Without(keys, key) == keys
  {
    if keys != [] {
      WithoutNone(keys[1..], key);
    }
  }

  function With(keys: seq<string>, key: string): seq<string> {
    if key in keys then keys else keys + [key]
  }

  lemma WithoutListed(order: seq<string>, hits: map<string, seq<int>>, key: string)
    requires Lists(order, hits)
    ensures Lists(Without(order, key), hits - {key})
  {
  }

  lemma WithListed(order: seq<string>, hits: map<string, seq<int>>, key: string, stamps: seq<int>)
    requires Lists(order, hits)
    ensures Lists(With(order, key), hits[key := stamps])
  {
  }

  /** What counts of a key's acquisitions at the time `now`. */
  function Recent(granted: map<string, seq<int>>, key: string, now: int, windowMs: int): seq<int> {
    Newer(StampsOf(granted, key), now - windowMs)
  }

  function Pruned(hits: map<string, seq<int>>, key: string, cutoff: int): map<string, seq<int>> {
    var times := Newer(StampsOf(hits, key), cutoff);
    if times == [] then hits - {key} else hits[key := times]
  }

  lemma PruneTable(hits: map<string, seq<int>>, granted: map<string, seq<int>>, bound: int, key: string, cutoff: int)
    requires AllPrunedAlike(hits, granted, bound) && bound <= cutoff
    ensures StampsOf(Pruned(hits, key, cutoff), key) == Newer(StampsOf(hits, key), cutoff) ==
            Newer(StampsOf(granted, key), cutoff)
    ensures AllPrunedAlike(Pruned(hits, key, cutoff), granted, cutoff)
  {
    PruneStored(StampsOf(hits, key), StampsOf(granted, key), bound, cutoff);
    var after := Pruned(hits, key, cutoff);
    forall k: string
      ensures PrunedAlike(StampsOf(after, k), StampsOf(granted, k), cutoff)
    {
      if k != key {
        assert StampsOf(after, k) == StampsOf(hits, k) && PrunedAlike(StampsOf(hits, k), StampsOf(granted, k), bound);
      }
    }
  }

  function Granted(table: map<string, seq<int>>, key: string, stamp: int): map<string, seq<int>> {
    table[key := StampsOf(table, key) + [stamp]]
  }

  lemma PushTable(hits: map<string, seq<int>>, granted: map<string, seq<int>>, bound: int, key: string, stamp: int,
                  late: int)
    requires AllPrunedAlike(hits, granted, bound) && bound <= late
    ensures AllPrunedAlike(Granted(hits, key, stamp), Granted(granted, key, stamp), late)
  {
    PushBoth(StampsOf(hits, key), StampsOf(granted, key), bound, stamp);
    forall k: string
      ensures PrunedAlike(StampsOf(Granted(hits, key, stamp), k), StampsOf(Granted(granted, key, stamp), k), late)
    {
      assert PrunedAlike(StampsOf(hits, k), StampsOf(granted, k), bound);
    }
  }

  /** An acquisition that the pruned list allows keeps every key within the limit. */
  lemma GrantKeepsLimited(granted: map<string, seq<int>>, windowMs: int, limit: int, key: string, now: int, later: int)
    requires AllLimited(granted, windowMs, limit) && now <= later && |Recent(granted, key, now, windowMs)| < limit
    ensures AllLimited(Granted(granted, key, later), windowMs, limit)
  {
    AcquireKeepsLimited(StampsOf(granted, key), windowMs, limit, now, later);
    forall k: string
      ensures Limited(StampsOf(Granted(granted, key, later), k), windowMs, limit)
    {
      assert Limited(StampsOf(granted, k), windowMs, limit);
    }
  }

  class SlidingWindowLimiter {
    const limit: int
    const windowMs: int
    var hits: map<string, seq<int>>
    /** The order in which the keys of `hits` are iterated. */
    var order: seq<string>
    /** Every acquisition ever granted, by key. */
    ghost var granted: map<string, seq<int>>
    /** The latest reading of the clock. */
    ghost var latest: int

    ghost predicate Valid()
      reads this
    {
      && AllPrunedAlike(hits, granted, latest - windowMs)
      && AllLimited(granted, windowMs, limit)
      && Lists(order, hits)
      && AllKnown(granted, latest)
    }

    constructor (limit: int, windowMs: int, start: int)
      ensures Valid() && this.limit == limit && this.windowMs == windowMs && latest == start && granted == map[]
    {
      this.limit, this.windowMs := limit, windowMs;
      hits, order, granted, latest := map[], [], map[], start;
    }

    /** Drops what has left the window; nothing that still counts is lost. */
    method Prune(key: string, now: int) returns (times: seq<int>)
      requires Valid() && latest <= now
      modifies this`hits, this`order, this`latest
      ensures Valid() && latest == now
      ensures times == StampsOf(hits, key) == Recent(granted, key, now, windowMs)
      ensures forall other :: other != key ==> StampsOf(hits, other) == StampsOf(old(hits), other)
      ensures OrderPruned(old(order), order, key, times == []) && (times != [] ==> key in old(order))
    {
      var cutoff := now - windowMs;
      times := Newer(StampsOf(hits, key), cutoff);
      PruneTable(hits, granted, latest - windowMs, key, cutoff);
      assert times == Recent(granted, key, now, windowMs);
      StaysKnown(granted, latest, now);
      PruneOrder(order, hits, key, times, cutoff);
      WithoutListed(order, hits, key);
      WithListed(order, hits, key, times);
      if times == [] {
        hits, order := hits - {key}, Without(order, key);
      } else {
        hits, order := hits[key := times], With(order, key);
      }
      assert hits == Pruned(old(hits), key, cutoff);
      latest := now;
    }

    /** `now` and `later` are the two readings of the clock. */
    method TryAcquire(key: string, now: int, later: int) returns (ok: bool)
      requires Valid() && latest <= now <= later
      modifies this
      ensures Valid() && latest == if ok then later else now
      ensures ok <==> |Recent(old(granted), key, now, windowMs)| < limit
      ensures ok <==> InWindow(StampsOf(old(granted), key), windowMs, now) < limit
      ensures granted == if ok then old(granted)[key := StampsOf(old(granted), key) + [later]] else old(granted)
      ensures var gone := Recent(old(granted), key, now, windowMs) == [];
              if ok then OrderGranted(old(order), order, key, gone) else OrderPruned(old(order), order, key, gone)
    {
      RecentIsWindow(granted, key, latest, now, windowMs);
      ghost var before := order;
      var times := Prune(key, now);
      if |times| >= limit {
        return false;
      }
      GrantKeepsLimited(granted, windowMs, limit, key, now, later);
      PushTable(hits, granted, now - windowMs, key, later, later - windowMs);
      WithListed(order, hits, key, times + [later]);
      GrantOrder(before, order, key, times == []);
      StaysKnown(granted, now, later);
      GrantIsKnown(granted, key, later);
      hits, order := hits[key := times + [later]], With(order, key);
      granted := granted[key := StampsOf(granted, key) + [later]];
      latest := later;
      ok := true;
    }

    method Count(key: string, now: int) returns (n: nat)
      requires Valid() && latest <= now
      modifies this`hits, this`order, this`latest
      ensures Valid() && latest == now && n == |Recent(granted, key, now, windowMs)|
    {
      var times := Prune(key, now);
      n := |times|;
    }

    /** One turn of the loop of Hottest. */
    method Warmer(key: string, now: int, best: Option<Hotspot>) returns (r: Option<Hotspot>)
      requires Valid() && latest <= now
      modifies this`hits, this`order, this`latest
      ensures Valid() && latest == now && r == Better(best, key, |Recent(granted, key, now, windowMs)|)
    {
      var times := Prune(key, now);
      var n := |times|;
      r := if n > 0 && (best.None? || n > best.value.count) then Some(Hotspot(key, n)) else best;
    }

    /** One reading of the clock for each key; the first of the keys with the most acquisitions is returned. */
    method Hottest(readings: seq<int>) returns (best: Option<Hotspot>)
      requires Valid() && |readings| == |order| && forall i :: 0 <= i < |readings| ==> Ticks(latest, readings, i)
      modifies this`hits, this`order, this`latest
      ensures Valid()
      ensures best == HottestOf(old(order), readings, |readings|, old(granted), windowMs)
    {
      best := None;
      var keys := order;
      ghost var start, all := latest, granted;
      for i := 0 to |keys|
        invariant Valid() && latest == (if i == 0 then start else readings[i - 1])
        invariant granted == all && best == HottestOf(keys, readings, i, all, windowMs)
      {
        var key, now := keys[i], readings[i];
        assert Ticks(start, readings, i);
        HottestStep(keys, readings, i, all, windowMs, key, best, |Recent(all, key, now, windowMs)|);
        best := Warmer(key, now, best);
      }
    }
  }

  /** How many of a key's acquisitions count at its reading of the clock. */
  function Load(keys: seq<string>, readings: seq<int>, i: nat, granted: map<string, seq<int>>, windowMs: int): nat
    requires i < |keys| && i < |readings|
  {
    |Recent(granted, keys[i], readings[i], windowMs)|
  }

  /** The best of the first `n` keys; a later key must have more to take its place. */
  ghost function HottestOf(keys: seq<string>, readings: seq<int>, n: nat, granted: map<string, seq<int>>,
                           windowMs: int): Option<Hotspot>
    requires n <= |keys| && n <= |readings|
  {
    if n == 0 then None
    else
      Better(HottestOf(keys, readings, n - 1, granted, windowMs), keys[n - 1],
             Load(keys, readings, n - 1, granted, windowMs))
  }

  function Better(best: Option<Hotspot>, key: string, count: nat): Option<Hotspot> {
    if count > 0 && (best.None? || count > best.value.count) then Some(Hotspot(key, count)) else best
  }

  lemma HottestStep(keys: seq<string>, readings: seq<int>, i: nat, granted: map<string, seq<int>>, windowMs: int,
                    key: string, best: Option<Hotspot>, count: nat)
    requires i < |keys| && i < |readings| && keys[i] == key && count == |Recent(granted, key, readings[i], windowMs)|
    requires best == HottestOf(keys, readings, i, granted, windowMs)
    ensures HottestOf(keys, readings, i + 1, granted, windowMs) == Better(best, key, count)
  {
  }

  /** The hottest key is the first with the most, and there is none only if all counts are zero. */
  lemma {:induction false} HottestIsFirstMaximal(keys: seq<string>, readings: seq<int>, n: nat, granted: map<string,
                                                 seq<int>>, windowMs: int)
    requires n <= |keys| && n <= |readings|
    ensures match HottestOf(keys, readings, n, granted, windowMs)
            case None => forall i :: 0 <= i < n ==> Load(keys, readings, i, granted, windowMs) == 0
            case Some(best) => IsFirstMaximal(best, keys, readings, n, granted, windowMs)
  {
    if n > 0 {
      HottestIsFirstMaximal(keys, readings, n - 1, granted, windowMs);
      var best := HottestOf(keys, readings, n, granted, windowMs);
      if best.Some? {
        var i := n - 1;
        if best == HottestOf(keys, readings, n - 1, granted, windowMs) {
          i :| 0 <= i < n - 1 && FirstWith(i, best.value, keys, readings, n - 1, granted, windowMs);
        }
        assert FirstWith(i, best.value, keys, readings, n, granted, windowMs);
      }
    }
  }

  ghost predicate FirstWith(i: nat, best: Hotspot, keys: seq<string>, readings: seq<int>, n: nat, granted: map<string,
                            seq<int>>, windowMs: int)
    requires i < n <= |keys| && n <= |readings|
  {
    && best == Hotspot(keys[i], Load(keys, readings, i, granted, windowMs)) && best.count > 0
    && (forall j :: 0 <= j < n ==> Load(keys, readings, j, granted, windowMs) <= best.count)
    && (forall j :: 0 <= j < i ==> Load(keys, readings, j, granted, windowMs) < best.count)
  }

  ghost predicate IsFirstMaximal(best: Hotspot, keys: seq<string>, readings: seq<int>, n: nat, granted: map<string,
                                 seq<int>>, windowMs: int)
    requires n <= |keys| && n <= |readings|
  {
    exists i :: 0 <= i < n && FirstWith(i, best, keys, readings, n, granted, windowMs)
  }
}
