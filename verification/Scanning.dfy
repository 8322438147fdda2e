/** Linear scans that rewrite a text: each step keeps everything or replaces one stretch. */
module Scanning {
  import opened Basics

  const STARS := "********"

  /** What the scan does next: it stops, or the stretch at `at` is replaced or kept. */
  datatype Step = Stop | Cut(at: nat, length: nat) | Keep(at: nat, length: nat)

  predicate Fits(t: string, step: Step) {
    !step.Stop? ==> step.length > 0 && step.at + step.length <= |t|
  }

  ghost predicate Advances(next: string -> Step) {
    forall t :: Fits(t, next(t))
  }

  function Scan(t: string, next: string -> Step): string
    requires Advances(next)
    decreases |t|
  {
    assert Fits(t, next(t));
    match next(t)
    case Stop => t
    case Cut(k, n) => t[..k] + (STARS + Scan(t[k + n..], next))
    case Keep(k, n) => t[..k + n] + Scan(t[k + n..], next)
  }

  lemma ScanStep(t: string, next: string -> Step, k: nat, n: nat)
    requires Advances(next)
    ensures next(t) == Cut(k, n) ==> k + n <= |t| && Scan(t, next) == t[..k] + (STARS + Scan(t[k + n..], next))
    ensures next(t) == Keep(k, n) ==> k + n <= |t| && Scan(t, next) == t[..k + n] + Scan(t[k + n..], next)
  {
    assert Fits(t, next(t));
  }

  // The same for a text already taken apart.

  lemma ScanCut(p: string, x: string, rest: string, next: string -> Step)
    requires Advances(next) && next(p + (x + rest)) == Cut(|p|, |x|)
    ensures Scan(p + (x + rest), next) == p + (STARS + Scan(rest, next))
  {
    var t := p + (x + rest);
    assert t[..|p|] == p && t[|p| + |x|..] == rest;
    ScanStep(t, next, |p|, |x|);
  }

  lemma ScanKeep(p: string, x: string, rest: string, next: string -> Step)
    requires Advances(next) && next(p + (x + rest)) == Keep(|p|, |x|)
    ensures Scan(p + (x + rest), next) == (p + x) + Scan(rest, next)
  {
    var t := p + (x + rest);
    assert t[..|p| + |x|] == p + x && t[|p| + |x|..] == rest;
    ScanStep(t, next, |p|, |x|);
  }

  lemma TakeApart(t: string, step: Step) returns (p: string, x: string, rest: string)
    requires Fits(t, step)
    ensures !step.Stop? ==> t == p + (x + rest) && |p| == step.at && |x| == step.length
    ensures !step.Stop? ==> t[|p|..] == x + rest && t[|p|..|p| + |x|] == x && t[|p| + |x|..] == rest
  {
    if step.Stop? {
      p, x, rest := "", "", "";
    } else {
      var k, e := step.at, step.at + step.length;
      p, x, rest := t[..k], t[k..e], t[e..];
      assert x + rest == t[k..];
    }
  }

  // A scan from `i` on, with `out` put out so far.

  lemma SliceOfRest(text: string, i: nat, k: nat, e: nat)
    requires i <= k <= e <= |text|
    ensures text[i..] == text[i..k] + (text[k..e] + text[e..])
  {
  }

  lemma CutFrom(out: string, text: string, i: nat, k: nat, e: nat, next: string -> Step)
    requires Advances(next) && i <= k < e <= |text| && next(text[i..]) == Cut(k - i, e - k)
    ensures out + Scan(text[i..], next) == ((out + text[i..k]) + STARS) + Scan(text[e..], next)
  {
    var p, x, rest := text[i..k], text[k..e], text[e..];
    SliceOfRest(text, i, k, e);
    ScanCut(p, x, rest, next);
    ConcatAssoc(out, p, STARS + Scan(rest, next));
    ConcatAssoc(out + p, STARS, Scan(rest, next));
  }

  lemma KeepFrom(out: string, text: string, i: nat, k: nat, e: nat, next: string -> Step)
    requires Advances(next) && i <= k < e <= |text| && next(text[i..]) == Keep(k - i, e - k)
    ensures out + Scan(text[i..], next) == (out + text[i..e]) + Scan(text[e..], next)
    ensures out + text[i..e] == (out + text[i..k]) + text[k..e]
  {
    var p, x, rest := text[i..k], text[k..e], text[e..];
    SliceOfRest(text, i, k, e);
    ScanKeep(p, x, rest, next);
    assert text[i..e] == p + x;
    ConcatAssoc(out, p + x, Scan(rest, next));
    ConcatAssoc(out, p, x);
  }

  // What a scan changes.

  /** A stretch of the input: shown as it is, or replaced. */
  datatype Piece = Kept(text: string) | Replaced(text: string)

  function Original(pieces: seq<Piece>): string {
    if pieces == [] then "" else pieces[0].text + Original(pieces[1..])
  }

  function Shown(pieces: seq<Piece>): string {
    if pieces == [] then ""
    else (if pieces[0].Kept? then pieces[0].text else STARS) + Shown(pieces[1..])
  }

  lemma PiecesStep(piece: Piece, pieces: seq<Piece>)
    ensures Original([piece] + pieces) == piece.text + Original(pieces)
    ensures Shown([piece] + pieces) == (if piece.Kept? then piece.text else STARS) + Shown(pieces)
  {
    assert ([piece] + pieces)[1..] == pieces;
  }

  /** `x` is a stretch that some step replaces. */
  ghost predicate CutOut(x: string, next: string -> Step) {
    exists p: string, rest: string :: next(p + (x + rest)) == Cut(|p|, |x|)
  }

  /** Every character that a scan does not replace it keeps, in place. */
  lemma {:induction false} OnlyCutsChange(t: string, next: string -> Step) returns (pieces: seq<Piece>)
    requires Advances(next)
    ensures Original(pieces) == t && Shown(pieces) == Scan(t, next)
    ensures forall piece :: piece in pieces && piece.Replaced? ==> CutOut(piece.text, next)
    decreases |t|
  {
    var step := next(t);
    assert Fits(t, step);
    if step.Stop? {
      PiecesStep(Kept(t), []);
      return [Kept(t)];
    }
    var p, x, rest := TakeApart(t, step);
    var more := OnlyCutsChange(rest, next);
    if step.Cut? {
      ScanCut(p, x, rest, next);
      PiecesStep(Replaced(x), more);
      PiecesStep(Kept(p), [Replaced(x)] + more);
      pieces := [Kept(p)] + ([Replaced(x)] + more);
    } else {
      ScanKeep(p, x, rest, next);
      ConcatAssoc(p, x, rest);
      PiecesStep(Kept(p + x), more);
      pieces := [Kept(p + x)] + more;
    }
  }
}
