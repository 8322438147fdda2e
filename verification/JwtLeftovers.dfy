/** When a three-part token stays in clear: behind a prefix that is reached and begins no token, in the same run. */
module JwtLeftovers {
  import opened Basics
  import opened Scanning
  import opened Texts
  import opened Jwt
  import opened JwtLaws
  import opened JwtHeads

  predicate TokenAt(t: string, k: nat) {
    At(t, k, PREFIX) && JwtLength(t[k..]).Some?
  }

  /** What is decided at one prefix: a token, or the rest of the run. */
  function Stretch(t: string, k: nat): nat
    requires k <= |t|
  {
    match JwtLength(t[k..]) case Some(n) => n case None => Span(t[k..], InRun)
  }

  /** A prefix that is not inside a stretch decided at a prefix before it. */
  predicate Reached(t: string, k: nat)
    decreases k, 1
  {
    At(t, k, PREFIX) && NothingOver(t, k)
  }

  /** No prefix reached before `k` decides what stands at `k`. */
  predicate NothingOver(t: string, k: nat)
    decreases k, 0
  {
    forall j: nat :: j < k && Reached(t, j) ==> j + Stretch(t, j) <= k
  }

  /** A prefix that is reached begins no token, and in its run a token follows at `j`. */
  predicate KeptBehind(t: string, k: nat, j: nat) {
    Reached(t, k) && JwtLength(t[k..]).None? && k < j < k + Span(t[k..], InRun) && TokenAt(t, j)
  }

  ghost predicate LeavesToken(t: string) {
    exists k, j :: KeptBehind(t, k, j)
  }

  ghost predicate HoldsToken(t: string) {
    exists k :: TokenAt(t, k)
  }

  // The scan, prefix by prefix.

  lemma StepIsStretch(t: string, k: nat)
    requires IndexOf(t, PREFIX, 0) == Some(k)
    ensures k <= |t| && !NextJwt(t).Stop? && NextJwt(t).at == k && NextJwt(t).length == Stretch(t, k)
    ensures NextJwt(t).Cut? == JwtLength(t[k..]).Some?
  {
    StepAt(t, k, t[k..]);
  }

  lemma FirstIsReached(t: string, k: nat)
    requires IndexOf(t, PREFIX, 0) == Some(k)
    ensures Reached(t, k)
  {
  }

  /** `t` is `q` and `v`, and `q` ends with the stretch at the first prefix `a`. */
  predicate FirstStretch(t: string, q: string, v: string, a: nat) {
    t == q + v && t[|q|..] == v && IndexOf(t, PREFIX, 0) == Some(a) && a + Stretch(t, a) == |q|
  }

  lemma StretchBehind(t: string, q: string, v: string, k: nat, l: nat)
    requires t == q + v && k == |q| + l
    ensures At(t, k, PREFIX) == At(v, l, PREFIX)
    ensures l <= |v| ==> t[k..] == v[l..] && Stretch(t, k) == Stretch(v, l)
  {
    AtSuffix(q, v, l);
    if l <= |v| {
      assert t[k..] == v[l..];
    }
  }

  /** A prefix before the rest that is reached is the first one. */
  lemma OnlyFirst(t: string, q: string, v: string, a: nat, i: nat)
    requires FirstStretch(t, q, v, a) && Reached(t, i) && i < |q|
    ensures i == a
  {
    FirstIsReached(t, a);
  }

  /** `i` in the text and `m` in its rest are both reached or both not. */
  predicate Alike(t: string, v: string, i: nat, m: nat) {
    Reached(t, i) == Reached(v, m)
  }

  lemma OverInRest(t: string, q: string, v: string, a: nat, k: nat, l: nat, i: nat, m: nat)
    requires FirstStretch(t, q, v, a) && k == |q| + l && i == |q| + m && m < l && Alike(t, v, i, m)
    ensures NothingOver(v, l) && Reached(t, i) ==> i + Stretch(t, i) <= k
    ensures NothingOver(t, k) && Reached(v, m) ==> m + Stretch(v, m) <= l
  {
    StretchBehind(t, q, v, i, m);
  }

  lemma OverBehind(t: string, q: string, v: string, a: nat, k: nat, l: nat)
    requires FirstStretch(t, q, v, a) && k == |q| + l
    requires forall i: nat, m: nat :: m < l && i == |q| + m ==> Alike(t, v, i, m)
    ensures NothingOver(t, k) == NothingOver(v, l)
  {
    if NothingOver(v, l) {
      forall i: nat | i < k && Reached(t, i)
        ensures i + Stretch(t, i) <= k
      {
        if i < |q| {
          OnlyFirst(t, q, v, a, i);
        } else {
          OverInRest(t, q, v, a, k, l, i, i - |q|);
        }
      }
    }
    if NothingOver(t, k) {
      forall m: nat | m < l && Reached(v, m)
        ensures m + Stretch(v, m) <= l
      {
        OverInRest(t, q, v, a, k, l, |q| + m, m);
      }
    }
  }

  lemma {:induction false} ReachedBehind(t: string, q: string, v: string, a: nat, k: nat, l: nat)
    requires FirstStretch(t, q, v, a) && k == |q| + l
    ensures Alike(t, v, k, l)
    decreases l
  {
    forall i: nat, m: nat | m < l && i == |q| + m
      ensures Alike(t, v, i, m)
    {
      ReachedBehind(t, q, v, a, i, m);
    }
    OverBehind(t, q, v, a, k, l);
    StretchBehind(t, q, v, k, l);
  }

  lemma SameBehind(q: string, v: string, t: string, a: nat, k: nat, l: nat)
    requires t == q + v && k == |q| + l && IndexOf(t, PREFIX, 0) == Some(a) && a + Stretch(t, a) == |q|
    ensures Reached(t, k) == Reached(v, l) && At(t, k, PREFIX) == At(v, l, PREFIX) && (l <= |v| ==> t[k..] == v[l..])
  {
    ReachedBehind(t, q, v, a, k, l);
    StretchBehind(t, q, v, k, l);
  }

  /** Behind the first stretch the rest of the text decides. */
  lemma KeptBehindLater(q: string, v: string, t: string, a: nat, k: nat, j: nat, l: nat, m: nat)
    requires t == q + v && IndexOf(t, PREFIX, 0) == Some(a) && a + Stretch(t, a) == |q|
    requires k == |q| + l && j == |q| + m
    ensures KeptBehind(t, k, j) == KeptBehind(v, l, m)
  {
    SameBehind(q, v, t, a, k, l);
    SameBehind(q, v, t, a, j, m);
  }

  lemma LeavesLater(q: string, v: string, t: string, a: nat)
    requires t == q + v && IndexOf(t, PREFIX, 0) == Some(a) && a + Stretch(t, a) == |q| && LeavesToken(v)
    ensures LeavesToken(t)
  {
    var l, m :| KeptBehind(v, l, m);
    KeptBehindLater(q, v, t, a, |q| + l, |q| + m, l, m);
  }

  /** `x` is a run, or the rest of one, that ends before `rest`. */
  predicate RunsTo(x: string, rest: string) {
    (forall m :: 0 <= m < |x| ==> InRun(x[m])) && (rest == "" || !InRun(rest[0]))
  }

  /** One step of the scan: `t` is rewritten to `u`, and behind the stretch `x` what `rest` is rewritten to follows. */
  ghost predicate Steps(p: string, x: string, rest: string, t: string, u: string, after: string) {
    && t == p + (x + rest) && t == (p + x) + rest && t[|p|..] == x + rest
    && IndexOf(t, PREFIX, 0) == Some(|p|) && |x| == Stretch(t, |p|) >= 3
    && (JwtLength(x + rest).Some? ==> u == p + (STARS + after) && u == (p + STARS) + after)
    && (JwtLength(x + rest).None? ==> u == (p + x) + after && RunsTo(x, rest) && RunsTo(x, after))
  }

  lemma CutStep(t: string, p: string, x: string, rest: string)
    requires t == p + (x + rest) && IndexOf(t, PREFIX, 0) == Some(|p|) && JwtLength(x + rest) == Some(|x|)
    ensures Redact(t) == p + (STARS + Redact(rest)) && Redact(t) == (p + STARS) + Redact(rest)
  {
    RedactCut(p, x, rest);
    ConcatAssoc(p, STARS, Redact(rest));
  }

  lemma KeepStep(t: string, p: string, x: string, rest: string)
    requires t == p + (x + rest) && IndexOf(t, PREFIX, 0) == Some(|p|) && JwtLength(x + rest) == None
    requires Span(x + rest, InRun) == |x|
    ensures Redact(t) == (p + x) + Redact(rest) && RunsTo(x, rest) && RunsTo(x, Redact(rest))
  {
    RedactKeep(p, x, rest);
    assert forall i :: 0 <= i < |x| ==> (x + rest)[i] == x[i];
    if rest != "" {
      assert (x + rest)[|x|] == rest[0];
      KeepsFirst(rest);
    } else {
      NoneLeft("");
    }
  }

  lemma FirstStep(t: string) returns (p: string, x: string, rest: string)
    requires IndexOf(t, PREFIX, 0).Some?
    ensures Steps(p, x, rest, t, Redact(t), Redact(rest)) && |rest| < |t|
  {
    var k := IndexOf(t, PREFIX, 0).value;
    StepIsStretch(t, k);
    p, x, rest := TakeApart(t, NextJwt(t));
    ConcatAssoc(p, x, rest);
    RunAtPrefix(t, k);
    if JwtLength(x + rest).Some? {
      CutStep(t, p, x, rest);
    } else {
      KeepStep(t, p, x, rest);
    }
  }

  /** In a kept run a token is as long as it was, whatever comes behind the run. */
  lemma SameToken(p: string, x: string, rest: string, after: string, i: nat)
    requires RunsTo(x, rest) && RunsTo(x, after) && |p| <= i < |p + x|
    ensures JwtLength(((p + x) + after)[i..]) == JwtLength((p + (x + rest))[i..])
    ensures At((p + x) + after, i, PREFIX) == At(p + (x + rest), i, PREFIX)
  {
    var y := x[i - |p|..];
    RunBehind(p, x, rest, after, i, y);
    LengthWithinRun(y, rest, 2);
    LengthWithinRun(y, after, 2);
    PrefixInRun(y, rest);
    PrefixInRun(y, after);
    AtShift((p + x) + after, i, 0, PREFIX);
    AtShift(p + (x + rest), i, 0, PREFIX);
  }

  lemma RunBehind(p: string, x: string, rest: string, after: string, i: nat, y: string)
    requires |p| <= i < |p + x| && y == x[i - |p|..]
    ensures ((p + x) + after)[i..] == y + after && (p + (x + rest))[i..] == y + rest
  {
  }

  lemma PrefixInRun(y: string, more: string)
    requires more == "" || !InRun(more[0])
    ensures At(y + more, 0, PREFIX) == At(y, 0, PREFIX)
  {
    if |y| >= 3 {
      AtWithin(y, more, 0, PREFIX);
    } else {
      if more != "" {
        assert (y + more)[|y|] == more[0];
      }
      if At(y + more, 0, PREFIX) {
        PrefixAt(y + more, 0);
      }
    }
  }

  lemma SuffixToken(q: string, v: string, i: nat)
    requires i >= |q|
    ensures TokenAt(q + v, i) == TokenAt(v, i - |q|)
  {
    AtSuffix(q, v, i - |q|);
    if i - |q| <= |v| {
      assert (q + v)[i..] == v[i - |q|..];
    }
  }

  lemma TokenBehindStars(p: string, x: string, v: string, k: nat)
    requires TokenAt(p + (STARS + v), k) && forall i :: 0 <= i < |p| ==> !At(p + x, i, PREFIX)
    ensures HoldsToken(v)
  {
    if k < |p + STARS| {
      NoPrefixAcross(p, x, v, k);
    }
    ConcatAssoc(p, STARS, v);
    SuffixToken(p + STARS, v, k);
  }

  lemma TokenInKeptRun(p: string, x: string, rest: string, t: string, u: string, after: string, i: nat)
    requires Steps(p, x, rest, t, u, after) && JwtLength(x + rest).None? && TokenAt(u, i) && i < |p + x|
    ensures KeptBehind(t, |p|, i)
  {
    SamePrefixes(p, x, rest, after);
    FirstIsReached(t, |p|);
    SameToken(p, x, rest, after, |p|);
    SameToken(p, x, rest, after, i);
  }

  lemma TokenFromStep(p: string, x: string, rest: string, t: string, u: string, after: string, i: nat)
    requires Steps(p, x, rest, t, u, after) && TokenAt(u, i)
    ensures LeavesToken(t) || HoldsToken(after)
  {
    if JwtLength(x + rest).Some? {
      TokenBehindStars(p, x + rest, after, i);
    } else if i < |p + x| {
      TokenInKeptRun(p, x, rest, t, u, after, i);
    } else {
      SuffixToken(p + x, after, i);
    }
  }

  lemma {:induction false} LeftTokenWasKept(t: string)
    requires HoldsToken(Redact(t))
    ensures LeavesToken(t)
    decreases |t|
  {
    var i :| TokenAt(Redact(t), i);
    if IndexOf(t, PREFIX, 0).None? {
      NoneLeft(t);
    } else {
      var p, x, rest := FirstStep(t);
      TokenFromStep(p, x, rest, t, Redact(t), Redact(rest), i);
      if !LeavesToken(t) {
        LeftTokenWasKept(rest);
        LeavesLater(p + x, rest, t, |p|);
      }
    }
  }

  /** The token at `j` of `t` stands in `u` at `i`, as it is. */
  ghost predicate StandsAt(t: string, j: nat, u: string, i: nat) {
    && TokenAt(t, j) && At(u, i, PREFIX) && JwtLength(u[i..]) == JwtLength(t[j..])
    && (var n := JwtLength(t[j..]).value; u[i..][..n] == t[j..][..n])
  }

  lemma StandsBehind(p: string, v: string, t: string, m: nat, j: nat, q: string, w: string, u: string, i: nat, at: nat)
    requires t == p + v && j == |p| + m && u == q + w && at == |q| + i && StandsAt(v, m, w, i)
    ensures StandsAt(t, j, u, at)
  {
    AtSuffix(p, v, m);
    AtSuffix(q, w, i);
    assert t[j..] == v[m..] && u[at..] == w[i..];
  }

  lemma SameStart(y: string, rest: string, after: string, n: nat)
    requires n <= |y|
    ensures (y + after)[..n] == (y + rest)[..n]
  {
  }

  lemma StandsInRun(p: string, x: string, rest: string, t: string, u: string, after: string, j: nat)
    requires t == p + (x + rest) && u == (p + x) + after && RunsTo(x, rest) && RunsTo(x, after)
    requires |p| <= j < |p + x| && TokenAt(t, j)
    ensures StandsAt(t, j, u, j)
  {
    var y := x[j - |p|..];
    SameToken(p, x, rest, after, j);
    RunBehind(p, x, rest, after, j, y);
    LengthWithinRun(y, rest, 2);
    SameStart(y, rest, after, JwtLength(t[j..]).value);
  }

  lemma StandsBehindStep(p: string, x: string, rest: string, t: string, u: string, after: string, j: nat, m: nat,
                         i: nat) returns (at: nat)
    requires Steps(p, x, rest, t, u, after) && j == |p + x| + m && StandsAt(rest, m, after, i)
    ensures StandsAt(t, j, u, at)
  {
    var shown := if JwtLength(x + rest).Some? then p + STARS else p + x;
    at := |shown| + i;
    StandsBehind(p + x, rest, t, m, j, shown, after, u, i, at);
  }

  lemma KeptHere(p: string, x: string, rest: string, t: string, u: string, after: string, j: nat)
    requires Steps(p, x, rest, t, u, after) && KeptBehind(t, |p|, j)
    ensures StandsAt(t, j, u, j)
  {
    StandsInRun(p, x, rest, t, u, after, j);
  }

  lemma NextReached(t: string, a: nat, k: nat)
    requires IndexOf(t, PREFIX, 0) == Some(a) && Reached(t, k) && k != a
    ensures k >= a + Stretch(t, a)
  {
    FirstIsReached(t, a);
  }

  lemma BeginsWithPrefix(t: string, k: nat, j: nat)
    requires KeptBehind(t, k, j)
    ensures IndexOf(t, PREFIX, 0).Some?
  {
  }

  lemma KeptLater(p: string, x: string, rest: string, t: string, u: string, after: string, k: nat, j: nat)
    returns (l: nat, m: nat)
    requires Steps(p, x, rest, t, u, after) && KeptBehind(t, k, j) && k != |p|
    ensures j == |p + x| + m && KeptBehind(rest, l, m)
  {
    NextReached(t, |p|, k);
    l, m := k - |p + x|, j - |p + x|;
    KeptBehindLater(p + x, rest, t, |p|, k, j, l, m);
  }

  /**
   A token behind a prefix that is reached and begins no token, in the same run, is in the
   output as it was in the text, whatever stands before and behind.
   */
  lemma {:induction false} TokenInsideRunIsKept(t: string, k: nat, j: nat) returns (i: nat)
    requires KeptBehind(t, k, j)
    ensures StandsAt(t, j, Redact(t), i)
    decreases |t|
  {
    BeginsWithPrefix(t, k, j);
    var p, x, rest := FirstStep(t);
    if k == |p| {
      KeptHere(p, x, rest, t, Redact(t), Redact(rest), j);
      i := j;
    } else {
      var l, m := KeptLater(p, x, rest, t, Redact(t), Redact(rest), k, j);
      var later := TokenInsideRunIsKept(rest, l, m);
      i := StandsBehindStep(p, x, rest, t, Redact(t), Redact(rest), j, m, later);
    }
  }

  /**
   No token is left exactly when in no run a prefix that is reached and begins no token is
   followed by a token.
   */
  lemma TokensAreGoneExactly(t: string)
    ensures (forall i :: !TokenAt(Redact(t), i)) <==> forall k, j :: !KeptBehind(t, k, j)
  {
    if k, j :| KeptBehind(t, k, j) {
      var i := TokenInsideRunIsKept(t, k, j);
      assert TokenAt(Redact(t), i);
    }
    if i :| TokenAt(Redact(t), i) {
      assert HoldsToken(Redact(t));
      LeftTokenWasKept(t);
    }
  }

  // Such texts exist.

  lemma {:induction false} AllInRun(t: string, segments: seq<string>)
    requires segments != [] && StartsWith(t, segments)
    ensures JoinedLength(segments) <= |t| && forall i :: 0 <= i < JoinedLength(segments) ==> InRun(t[i])
  {
    var s := segments[0];
    assert forall i :: 0 <= i < |s| ==> t[i] == s[i];
    if |segments| > 1 {
      var more := t[|s| + 1..];
      AllInRun(more, segments[1..]);
      assert forall i :: |s| < i < JoinedLength(segments) ==> t[i] == more[i - |s| - 1];
    }
  }

  lemma TokenCharacters(x: string)
    requires IsWholeToken(x)
    ensures forall i :: 0 <= i < |x| ==> InRun(x[i])
  {
    var segments := SegmentsFound(x, 2);
    SegmentsDecide(x, segments);
    AllInRun(x, segments);
  }

  lemma TooShort(t: string, a: nat)
    requires Segment(t) == a < MIN_SEGMENT
    ensures JwtLength(t) == None
  {
  }

  lemma FourCharacters(t: string)
    requires |t| >= 4 && t[..4] == PREFIX + "."
    ensures t[0] == 'e' && t[1] == 'y' && t[2] == 'J' && t[3] == '.'
  {
    assert t[0] == t[..4][0] && t[1] == t[..4][1] && t[2] == t[..4][2] && t[3] == t[..4][3];
  }

  lemma ShortFirstSegment(t: string)
    requires |t| >= 4 && t[..4] == PREFIX + "."
    ensures IndexOf(t, PREFIX, 0) == Some(0) && JwtLength(t) == None
  {
    assert t[0..3] == t[..4][..3] == PREFIX;
    IndexIs(t, PREFIX, 0, 0);
    FourCharacters(t);
    SpanUnique(t, IsJwtChar, 3);
    TooShort(t, 3);
  }

  /** A token behind a short segment that begins with the prefix stays. */
  lemma TokenBehindShortSegment(x: string)
    requires IsWholeToken(x)
    ensures KeptBehind(PREFIX + "." + x, 0, 4)
  {
    var t := PREFIX + "." + x;
    TokenCharacters(x);
    assert forall i :: 4 <= i < |t| ==> t[i] == x[i - 4];
    FourCharacters(t);
    ShortFirstSegment(t);
    SpanUnique(t, InRun, |t|);
    assert t[0..] == t && t[4..] == x;
    AtShift(t, 4, 0, PREFIX);
  }
}
