/** Three-part tokens (RFC 7515, section 7.1) in running text. */
module Jwt {
  import opened Basics
  import opened Scanning
  import opened Texts

  const PREFIX := "eyJ"
  const MIN_SEGMENT := 16

  predicate IsJwtChar(c: char) {
    'A' <= c <= 'Z' || 'a' <= c <= 'z' || IsDigit(c) || c == '-' || c == '_'
  }

  predicate InRun(c: char) {
    IsJwtChar(c) || c == '.'
  }

  /** How far token characters reach. */
  function Segment(t: string): (n: nat)
    ensures n <= |t|
  {
    Span(t, IsJwtChar)
  }

  /** The length of a segment and `more` further ones after dots, the last read as far as it goes. */
  function SegmentsLength(t: string, more: nat): (n: Option<nat>)
    ensures n.Some? ==> MIN_SEGMENT <= n.value <= |t|
    decreases |t|
  {
    var a := Segment(t);
    if a < MIN_SEGMENT then None
    else if more == 0 then Some(a)
    else if a == |t| || t[a] != '.' then None
    else Shifted(a + 1, SegmentsLength(t[a + 1..], more - 1))
  }

  function Shifted(offset: nat, n: Option<nat>): Option<nat> {
    match n case Some(k) => Some(offset + k) case None => None
  }

  /** The length of the token at the start of `t`. */
  function JwtLength(t: string): (n: Option<nat>)
    ensures n.Some? ==> MIN_SEGMENT <= n.value <= |t|
  {
    SegmentsLength(t, 2)
  }

  /** isStandaloneJwt. */
  predicate IsWholeToken(x: string) {
    PREFIX <= x && JwtLength(x) == Some(|x|)
  }

  // What jwtEnd accepts.

  predicate IsSegment(s: string) {
    |s| >= MIN_SEGMENT && forall i :: 0 <= i < |s| ==> IsJwtChar(s[i])
  }

  /** `t` starts with the segments, joined by dots, and the last cannot be read further. */
  ghost predicate StartsWith(t: string, segments: seq<string>)
    requires segments != []
  {
    var s := segments[0];
    && IsSegment(s) && s <= t
    && if |segments| == 1 then |s| == |t| || !IsJwtChar(t[|s|])
       else |s| < |t| && t[|s|] == '.' && StartsWith(t[|s| + 1..], segments[1..])
  }

  function JoinedLength(segments: seq<string>): nat
    requires segments != []
  {
    if |segments| == 1 then |segments[0]| else |segments[0]| + 1 + JoinedLength(segments[1..])
  }

  /** One step of the token test, given what it finds behind the dot. */
  lemma OneSegment(t: string, n: nat, a: nat, dot: bool, more: Option<nat>)
    requires a == Segment(t) && dot == (a < |t| && t[a] == '.')
    requires dot && n > 0 ==> more == SegmentsLength(t[a + 1..], n - 1)
    ensures SegmentsLength(t, n)
         == if a < MIN_SEGMENT then None else if n == 0 then Some(a) else if dot then Shifted(a + 1, more) else None
  {
  }

  lemma SegmentIs(t: string, s: string)
    requires IsSegment(s) && s <= t && (|s| < |t| ==> !IsJwtChar(t[|s|]))
    ensures Segment(t) == |s| >= MIN_SEGMENT
  {
    assert forall i :: 0 <= i < |s| ==> t[i] == s[i];
    SpanUnique(t, IsJwtChar, |s|);
  }

  lemma SegmentAlone(t: string, s: string)
    requires IsSegment(s) && s <= t && (|s| < |t| ==> !IsJwtChar(t[|s|]))
    ensures SegmentsLength(t, 0) == Some(|s|)
  {
    SegmentIs(t, s);
  }

  lemma SegmentAndMore(t: string, s: string, rest: string, n: nat, more: Option<nat>)
    requires IsSegment(s) && s <= t && |s| < |t| && t[|s|] == '.' && rest == t[|s| + 1..]
    requires n > 0 && more == SegmentsLength(rest, n - 1)
    ensures SegmentsLength(t, n) == Shifted(|s| + 1, more)
  {
    SegmentIs(t, s);
    OneSegment(t, n, |s|, true, more);
  }

  /** One segment in front of others that decide how long the rest of the token is. */
  lemma SegmentsStep(t: string, s: string, rest: string, n: nat, more: nat, length: nat)
    requires IsSegment(s) && s <= t && |s| < |t| && t[|s|] == '.' && rest == t[|s| + 1..] && n > 0
    requires SegmentsLength(rest, n - 1) == Some(more) && length == |s| + 1 + more
    ensures SegmentsLength(t, n) == Some(length)
  {
    SegmentAndMore(t, s, rest, n, Some(more));
  }

  lemma StartsWithMore(t: string, segments: seq<string>) returns (s: string, rest: string, others: seq<string>)
    requires |segments| > 1 && StartsWith(t, segments)
    ensures IsSegment(s) && s <= t && |s| < |t| && t[|s|] == '.' && rest == t[|s| + 1..]
    ensures |others| == |segments| - 1 && StartsWith(rest, others)
    ensures JoinedLength(segments) == |s| + 1 + JoinedLength(others)
  {
    s, others := segments[0], segments[1..];
    rest := t[|s| + 1..];
  }

  lemma StartsWithOne(t: string, segments: seq<string>)
    requires |segments| == 1 && StartsWith(t, segments)
    ensures SegmentsLength(t, 0) == Some(JoinedLength(segments))
  {
    SegmentAlone(t, segments[0]);
  }

  lemma {:induction false} SegmentsCount(t: string, segments: seq<string>, n: nat)
    requires |segments| == n + 1 && StartsWith(t, segments)
    ensures SegmentsLength(t, n) == Some(JoinedLength(segments))
    decreases n
  {
    if n == 0 {
      StartsWithOne(t, segments);
    } else {
      var s, rest, others := StartsWithMore(t, segments);
      SegmentsCount(rest, others, n - 1);
      SegmentsStep(t, s, rest, n, JoinedLength(others), JoinedLength(segments));
    }
  }

  lemma SegmentsDecide(t: string, segments: seq<string>)
    requires segments != [] && StartsWith(t, segments)
    ensures SegmentsLength(t, |segments| - 1) == Some(JoinedLength(segments))
  {
    SegmentsCount(t, segments, |segments| - 1);
  }

  /** What the token test reads first. */
  lemma FirstSegment(t: string, n: nat) returns (s: string, rest: string)
    requires SegmentsLength(t, n).Some?
    ensures IsSegment(s) && s <= t
    ensures n == 0 ==> |s| == |t| || !IsJwtChar(t[|s|])
    ensures n > 0 ==> |s| < |t| && t[|s|] == '.' && rest == t[|s| + 1..] && SegmentsLength(rest, n - 1).Some?
  {
    var a := Segment(t);
    s := t[..a];
    rest := if a < |t| then t[a + 1..] else "";
    var dot := a < |t| && t[a] == '.';
    OneSegment(t, n, a, dot, if dot && n > 0 then SegmentsLength(rest, n - 1) else None);
  }

  lemma OneInFront(t: string, s: string, rest: string, others: seq<string>, segments: seq<string>)
    requires IsSegment(s) && s <= t && |s| < |t| && t[|s|] == '.' && rest == t[|s| + 1..]
    requires others != [] && StartsWith(rest, others) && segments == [s] + others
    ensures StartsWith(t, segments)
  {
    assert segments[1..] == others;
  }

  lemma {:induction false} SegmentsFound(t: string, more: nat) returns (segments: seq<string>)
    requires SegmentsLength(t, more).Some?
    ensures |segments| == more + 1 && StartsWith(t, segments)
    decreases more
  {
    var s, rest := FirstSegment(t, more);
    if more == 0 {
      segments := [s];
    } else {
      var others := SegmentsFound(rest, more - 1);
      segments := [s] + others;
      OneInFront(t, s, rest, others, segments);
    }
  }

  /** jwtEnd succeeds exactly on three dot-separated segments of at least 16 characters, read maximally. */
  lemma JwtLengthExactly(t: string, n: nat)
    ensures JwtLength(t) == Some(n)
       <==> exists segments :: |segments| == 3 && StartsWith(t, segments) && n == JoinedLength(segments)
  {
    if JwtLength(t) == Some(n) {
      var segments := SegmentsFound(t, 2);
      SegmentsDecide(t, segments);
    }
    if segments :| |segments| == 3 && StartsWith(t, segments) && n == JoinedLength(segments) {
      SegmentsDecide(t, segments);
    }
  }

  /** The characters `from..to` form a run of token characters that ends there. */
  lemma RunEnds(text: string, from: nat, to: nat)
    requires from <= to <= |text| && (forall k :: from <= k < to ==> IsJwtChar(text[k]))
    requires (to < |text| ==> !IsJwtChar(text[to]))
    ensures Segment(text[from..]) == to - from
    ensures to < |text| ==> text[from..][to - from] == text[to] && text[from..][to - from + 1..] == text[to + 1..]
  {
    SpanUnique(text[from..], IsJwtChar, to - from);
  }

  predicate RunOf(text: string, from: nat, to: nat) {
    from <= to <= |text| && forall k :: from <= k < to ==> IsJwtChar(text[k])
  }

  /** One segment and the dot after it. */
  lemma SegmentThenDot(text: string, from: nat, to: nat, more: nat)
    requires RunOf(text, from, to) && to < |text| && text[to] == '.' && more > 0
    ensures SegmentsLength(text[from..], more)
         == if to - from < MIN_SEGMENT then None else Shifted(to - from + 1, SegmentsLength(text[to + 1..], more - 1))
  {
    RunEnds(text, from, to);
  }

  /** A segment with no dot after it that could be followed by another. */
  lemma SegmentThenEnd(text: string, from: nat, to: nat, more: nat)
    requires RunOf(text, from, to) && (to < |text| ==> !IsJwtChar(text[to]))
    requires to - from > 0 && more > 0 && to < |text| ==> text[to] != '.'
    ensures SegmentsLength(text[from..], more) ==
            if more == 0 && to - from >= MIN_SEGMENT then Some(to - from) else None
  {
    RunEnds(text, from, to);
  }

  /** The segment that starts at `start` has this length and the dot `d` behind it. */
  ghost predicate DotAt(text: string, start: nat, d: nat, length: int) {
    RunOf(text, start, d) && d < |text| && text[d] == '.' && 0 <= length == d - start
  }

  /** A segment with its dot, given what follows the dot. */
  lemma OneMore(text: string, from: nat, to: nat, more: nat, n: nat, rest: Option<nat>)
    requires DotAt(text, from, to, to - from) && SegmentsLength(text[to + 1..], more) == rest && n == more + 1
    ensures SegmentsLength(text[from..], n) == if to - from < MIN_SEGMENT then None else Shifted(to - from + 1, rest)
  {
    SegmentThenDot(text, from, to, n);
  }

  lemma OneDot(text: string, start: nat, d: nat, end: nat)
    requires DotAt(text, start, d, d - start) && RunOf(text, d + 1, end) && (end < |text| ==> !IsJwtChar(text[end]))
    requires end < |text| && text[end] == '.' ==> end == d + 1
    ensures JwtLength(text[start..]) == None
  {
    SegmentThenEnd(text, d + 1, end, 1);
    OneMore(text, start, d, 1, 2, None);
  }

  lemma LastTwo(text: string, from: nat, e: nat, end: nat)
    requires DotAt(text, from, e, e - from) && RunOf(text, e + 1, end) && (end < |text| ==> !IsJwtChar(text[end]))
    ensures SegmentsLength(text[from..], 1) ==
            if e - from >= MIN_SEGMENT && end - e > MIN_SEGMENT then Some(end - from) else None
  {
    SegmentThenEnd(text, e + 1, end, 0);
    OneMore(text, from, e, 0, 1, if end - e > MIN_SEGMENT then Some(end - (e + 1)) else None);
  }

  lemma TwoDots(text: string, start: nat, d: nat, e: nat, end: nat)
    requires DotAt(text, start, d, d - start) && DotAt(text, d + 1, e, e - (d + 1))
    requires RunOf(text, e + 1, end) && (end < |text| ==> !IsJwtChar(text[end]))
    ensures JwtLength(text[start..])
         == if d - start >= MIN_SEGMENT && e - d > MIN_SEGMENT && end - e > MIN_SEGMENT then Some(end - start) else None
  {
    LastTwo(text, d + 1, e, end);
    var rest := text[d + 1..];
    if e - d > MIN_SEGMENT && end - e > MIN_SEGMENT {
      SomeBehind(text, start, d, rest, end - (d + 1), end - start);
    } else {
      NoneBehind(text, start, d, rest);
    }
  }

  lemma SomeBehind(text: string, start: nat, d: nat, rest: string, n: nat, length: nat)
    requires DotAt(text, start, d, d - start) && rest == text[d + 1..] && SegmentsLength(rest, 1) == Some(n)
    requires length == d - start + 1 + n
    ensures JwtLength(text[start..]) == if d - start >= MIN_SEGMENT then Some(length) else None
  {
    OneMore(text, start, d, 1, 2, Some(n));
  }

  lemma NoneBehind(text: string, start: nat, d: nat, rest: string)
    requires DotAt(text, start, d, d - start) && rest == text[d + 1..] && SegmentsLength(rest, 1) == None
    ensures JwtLength(text[start..]) == None
  {
    OneMore(text, start, d, 1, 2, None);
  }

  method JwtEnd(text: string, start: nat) returns (end: int)
    requires start <= |text|
    ensures end < 0 ==> JwtLength(text[start..]) == None
    ensures end >= 0 ==> JwtLength(text[start..]) == Some(end - start) && end > start
  {
    var i, dots, segLen := start, 0, 0;
    var segLens: seq<nat> := [];
    ghost var d: nat, e: nat := start, start;
    while i < |text|
      invariant start + segLen <= i && 0 <= dots <= 2 && |segLens| == dots
      invariant RunOf(text, i - segLen, i)
      invariant dots >= 1 ==> DotAt(text, start, d, segLens[0])
      invariant dots == 2 ==> DotAt(text, d + 1, e, segLens[1])
      invariant i - segLen == if dots == 0 then start else if dots == 1 then d + 1 else e + 1
    {
      if IsJwtChar(text[i]) {
        segLen, i := segLen + 1, i + 1;
      } else if text[i] == '.' && segLen > 0 && dots < 2 {
        d, e := if dots == 0 then i else d, i;
        segLens, dots, segLen := segLens + [segLen], dots + 1, 0;
        i := i + 1;
      } else {
        break;
      }
    }
    if dots == 0 {
      SegmentThenEnd(text, start, i, 2);
    } else if dots == 1 {
      OneDot(text, start, d, i);
    } else {
      TwoDots(text, start, d, e, i);
    }
    segLens := segLens + [segLen];
    assert dots == 2 ==> segLens[0] == d - start && segLens[1] == e - d - 1 && segLens[2] == segLen;
    var long := forall k :: 0 <= k < |segLens| ==> segLens[k] >= MIN_SEGMENT;
    end := if dots == 2 && |segLens| == 3 && long then i else -1;
  }

  method SkipJwtRun(text: string, start: nat) returns (end: nat)
    requires start < |text|
    ensures InRun(text[start]) ==> end == start + Span(text[start..], InRun)
    ensures !InRun(text[start]) ==> end == start + 1
  {
    end := start;
    while end < |text| && InRun(text[end])
      invariant start <= end <= |text|
      invariant forall k :: start <= k < end ==> InRun(text[k])
    {
      end := end + 1;
    }
    SpanUnique(text[start..], InRun, end - start);
    if end == start {
      end := start + 1;
    }
  }

  /** A prefix is itself part of a run. */
  lemma RunAtPrefix(t: string, k: nat)
    requires At(t, k, PREFIX)
    ensures Span(t[k..], InRun) >= 3 && InRun(t[k])
  {
    var u, w := t[k..], t[k..k + 3];
    assert u[0] == w[0] == 'e' && u[1] == w[1] == 'y' && u[2] == w[2] == 'J';
  }

  /** redactJwts: at each prefix either a token is replaced or the whole run it starts is kept. */
  function NextJwt(t: string): (step: Step)
    ensures Fits(t, step) && (!step.Stop? ==> step.length >= 3 && At(t, step.at, PREFIX))
  {
    match IndexOf(t, PREFIX, 0)
    case None => Stop
    case Some(k) =>
      RunAtPrefix(t, k);
      match JwtLength(t[k..])
      case Some(n) => Cut(k, n)
      case None => Keep(k, Span(t[k..], InRun))
  }

  function Redact(t: string): string {
    Scan(t, NextJwt)
  }

  lemma RedactCut(p: string, x: string, rest: string)
    requires IndexOf(p + (x + rest), PREFIX, 0) == Some(|p|) && JwtLength(x + rest) == Some(|x|)
    ensures Redact(p + (x + rest)) == p + (STARS + Redact(rest))
  {
    assert (p + (x + rest))[|p|..] == x + rest;
    ScanCut(p, x, rest, NextJwt);
  }

  lemma RedactKeep(p: string, x: string, rest: string)
    requires IndexOf(p + (x + rest), PREFIX, 0) == Some(|p|) && JwtLength(x + rest) == None
    requires Span(x + rest, InRun) == |x|
    ensures Redact(p + (x + rest)) == (p + x) + Redact(rest)
  {
    RunAtPrefix(p + (x + rest), |p|);
    assert (p + (x + rest))[|p|..] == x + rest;
    ScanKeep(p, x, rest, NextJwt);
  }

  lemma NoneLeft(t: string)
    requires IndexOf(t, PREFIX, 0) == None
    ensures Redact(t) == t
  {
  }

  lemma StepAt(t: string, k: nat, u: string)
    requires k <= |t| && IndexOf(t, PREFIX, 0) == Some(k) && t[k..] == u
    ensures NextJwt(t) == if JwtLength(u).Some? then Cut(k, JwtLength(u).value) else Keep(k, Span(u, InRun))
  {
  }

  lemma StepFrom(text: string, i: nat, k: nat)
    requires i <= |text| && IndexOf(text, PREFIX, i) == Some(k)
    ensures NextJwt(text[i..]) ==
            match JwtLength(text[k..]) case Some(n) => Cut(k - i, n) case None => Keep(k - i, Span(text[k..], InRun))
  {
    IndexShift(text, PREFIX, i);
    assert text[i..][k - i..] == text[k..];
    StepAt(text[i..], k - i, text[k..]);
  }

  // The scan of a rest of the text, for whatever scans as redactJwts does.

  ghost predicate Does(scan: string -> string, next: string -> Step) {
    && Advances(next)
    && (forall t {:trigger NextJwt(t)} :: next(t) == NextJwt(t))
    && (forall t {:trigger Scan(t, next)} :: scan(t) == Scan(t, next))
  }

  lemma StepShown(out: string, text: string, i: nat, k: nat, e: nat, scan: string -> string, next: string -> Step)
    requires Does(scan, next) && i <= k < e <= |text|
    ensures NextJwt(text[i..]) == Cut(k - i, e - k) ==>
            out + scan(text[i..]) == (out + text[i..k] + STARS) + scan(text[e..])
    ensures NextJwt(text[i..]) == Keep(k - i, e - k) ==>
            out + scan(text[i..]) == (out + text[i..k] + text[k..e]) + scan(text[e..])
  {
    if next(text[i..]) == Cut(k - i, e - k) {
      CutFrom(out, text, i, k, e, next);
    } else if next(text[i..]) == Keep(k - i, e - k) {
      KeepFrom(out, text, i, k, e, next);
    }
  }

  lemma CutHere(out: string, text: string, i: nat, k: nat, e: nat, scan: string -> string, next: string -> Step)
    requires Does(scan, next) && i <= k < e <= |text| && IndexOf(text, PREFIX, i) == Some(k)
    requires JwtLength(text[k..]) == Some(e - k)
    ensures out + scan(text[i..]) == (out + text[i..k] + STARS) + scan(text[e..])
  {
    StepFrom(text, i, k);
    StepShown(out, text, i, k, e, scan, next);
  }

  lemma KeepHere(out: string, text: string, i: nat, k: nat, e: nat, scan: string -> string, next: string -> Step)
    requires Does(scan, next) && i <= k < e <= |text| && IndexOf(text, PREFIX, i) == Some(k)
    requires JwtLength(text[k..]) == None && Span(text[k..], InRun) == e - k
    ensures out + scan(text[i..]) == (out + text[i..k] + text[k..e]) + scan(text[e..])
  {
    StepFrom(text, i, k);
    StepShown(out, text, i, k, e, scan, next);
  }

  lemma NoneFrom(text: string, i: nat, scan: string -> string, next: string -> Step)
    requires Does(scan, next) && i <= |text| && IndexOf(text, PREFIX, i) == None
    ensures scan(text[i..]) == text[i..]
  {
    IndexShift(text, PREFIX, i);
    assert NextJwt(text[i..]) == Stop && Scan(text[i..], next) == text[i..];
  }

  method RedactRuns(text: string, ghost scan: string -> string, ghost next: string -> Step) returns (out: string)
    requires Does(scan, next)
    ensures out == scan(text)
  {
    out := "";
    var i := 0;
    assert text[0..] == text;
    while i < |text|
      invariant i <= |text|
      invariant out + scan(text[i..]) == scan(text)
      decreases |text| - i
    {
      var start := IndexOf(text, PREFIX, i);
      if start.None? {
        NoneFrom(text, i, scan, next);
        return out + text[i..];
      }
      var k := start.value;
      var end := JwtEnd(text, k);
      if end > k {
        CutHere(out, text, i, k, end, scan, next);
        out := out + text[i..k] + STARS;
        i := end;
      } else {
        RunAtPrefix(text, k);
        var skipTo := SkipJwtRun(text, k);
        KeepHere(out, text, i, k, skipTo, scan, next);
        out := out + text[i..k] + text[k..skipTo];
        i := skipTo;
      }
    }
    NoneFrom(text, i, scan, next);
    assert text[i..] == "";
  }

  method RedactJwts(text: string) returns (out: string)
    ensures out == Redact(text)
  {
    out := RedactRuns(text, Redact, NextJwt);
  }
}
