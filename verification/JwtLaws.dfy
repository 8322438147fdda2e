/** What redacting three-part tokens changes, and that doing it twice changes nothing more. */
module JwtLaws {
  import opened Basics
  import opened Scanning
  import opened Texts
  import opened Jwt

  lemma WholeToken(x: string, rest: string)
    requires JwtLength(x + rest) == Some(|x|) && At(x + rest, 0, PREFIX)
    ensures IsWholeToken(x)
  {
    var segments := SegmentsFound(x + rest, 2);
    SegmentsDecide(x + rest, segments);
    StopsThere(x, rest, segments);
    SegmentsDecide(x, segments);
    assert (x + rest)[0..3] == x[..3];
  }

  lemma {:induction false} StopsThere(x: string, rest: string, segments: seq<string>)
    requires segments != [] && StartsWith(x + rest, segments) && JoinedLength(segments) == |x|
    ensures StartsWith(x, segments)
  {
    var s := segments[0];
    assert (x + rest)[..|s|] == x[..|s|];
    if |segments| > 1 {
      assert (x + rest)[|s| + 1..] == x[|s| + 1..] + rest;
      StopsThere(x[|s| + 1..], rest, segments[1..]);
    }
  }

  lemma CutIsToken(p: string, x: string, rest: string)
    requires NextJwt(p + (x + rest)) == Cut(|p|, |x|)
    ensures IsWholeToken(x)
  {
    var t := p + (x + rest);
    assert t[|p|..] == x + rest;
    AtShift(t, |p|, 0, PREFIX);
    WholeToken(x, rest);
  }

  /** Outside the replaced tokens the text is untouched, and every replaced stretch is one whole token. */
  lemma OnlyTokensAreCut(t: string) returns (pieces: seq<Piece>)
    ensures Original(pieces) == t && Shown(pieces) == Redact(t)
    ensures forall piece :: piece in pieces && piece.Replaced? ==> IsWholeToken(piece.text)
  {
    pieces := OnlyCutsChange(t, NextJwt);
    forall piece | piece in pieces && piece.Replaced?
      ensures IsWholeToken(piece.text)
    {
      var p: string, rest: string :| NextJwt(p + (piece.text + rest)) == Cut(|p|, |piece.text|);
      CutIsToken(p, piece.text, rest);
    }
  }

  lemma SpanWithin(run: string, more: string)
    requires forall i :: 0 <= i < |run| ==> InRun(run[i])
    requires more == "" || !InRun(more[0])
    ensures Segment(run + more) == Segment(run) <= |run|
    ensures Span(run + more, InRun) == |run|
  {
    var a := Segment(run);
    assert a < |run| ==> (run + more)[a] == run[a];
    assert more != "" ==> (run + more)[|run|] == more[0];
    SpanUnique(run + more, IsJwtChar, a);
    SpanUnique(run + more, InRun, |run|);
  }

  /** The token test reads no further than the run. */
  lemma {:induction false} LengthWithinRun(run: string, rest: string, n: nat)
    requires forall i :: 0 <= i < |run| ==> InRun(run[i])
    requires rest == "" || !InRun(rest[0])
    ensures SegmentsLength(run + rest, n) == SegmentsLength(run, n)
    decreases n
  {
    SpanWithin(run, rest);
    var t, a := run + rest, Segment(run);
    var dot := a < |run| && run[a] == '.';
    var more := None;
    if dot && n > 0 {
      assert t[a + 1..] == run[a + 1..] + rest;
      LengthWithinRun(run[a + 1..], rest, n - 1);
      more := SegmentsLength(run[a + 1..], n - 1);
    }
    OneSegment(run, n, a, dot, more);
    OneSegment(t, n, a, dot, more);
  }

  lemma PrefixAt(t: string, j: nat)
    requires At(t, j, PREFIX)
    ensures t[j] == 'e' && t[j + 1] == 'y' && t[j + 2] == 'J'
  {
    assert t[j..j + 3][0] == t[j] && t[j..j + 3][1] == t[j + 1] && t[j..j + 3][2] == t[j + 2];
  }

  /** A text that does not start with the first letter of the prefix keeps its first character. */
  lemma KeepsFirst(t: string)
    requires t != "" && t[0] != 'e'
    ensures Redact(t) != "" && Redact(t)[0] == t[0]
  {
    if IndexOf(t, PREFIX, 0).Some? {
      var p, x, rest := TakeApart(t, NextJwt(t));
      if p == "" {
        PrefixAt(t, 0);
      } else if JwtLength(x + rest) == Some(|x|) {
        RedactCut(p, x, rest);
      } else {
        RedactKeep(p, x, rest);
      }
    }
  }

  /** Putting stars and anything after `p` does not complete a prefix that starts in `p` or in the stars. */
  lemma NoPrefixAcross(p: string, rest: string, after: string, j: nat)
    requires j < |p + STARS| && forall i :: 0 <= i < |p| ==> !At(p + rest, i, PREFIX)
    ensures !At(p + (STARS + after), j, PREFIX)
  {
    var t := p + (STARS + after);
    if At(t, j, PREFIX) {
      PrefixAt(t, j);
      if j + 3 <= |p| {
        AtWithin(p, rest, j, PREFIX);
        AtWithin(p, STARS + after, j, PREFIX);
      }
    }
  }

  lemma PutBefore(x: string, t: string, segments: seq<string>)
    requires IsSegment(x) && segments != [] && StartsWith(t, segments)
    ensures StartsWith(x + ("." + t), [x] + segments)
    ensures JoinedLength([x] + segments) == |x| + 1 + JoinedLength(segments)
  {
    assert ([x] + segments)[1..] == segments && (x + ("." + t))[|x| + 1..] == t;
  }

  /** Three long segments joined by dots are a token. */
  lemma SegmentsMakeAToken(x: string, y: string, z: string)
    requires IsSegment(x) && IsSegment(y) && IsSegment(z) && PREFIX <= x
    ensures IsWholeToken(x + ("." + (y + ("." + z))))
  {
    assert StartsWith(z, [z]) && JoinedLength([z]) == |z|;
    PutBefore(y, z, [z]);
    PutBefore(x, y + ("." + z), [y] + [z]);
    SegmentsDecide(x + ("." + (y + ("." + z))), [x] + ([y] + [z]));
  }
}
