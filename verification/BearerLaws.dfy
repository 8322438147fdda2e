/** What redacting bearer credentials guarantees, for any test of what is a credential. */
module BearerLaws {
  import opened Basics
  import opened Scanning
  import opened Texts
  import opened Bearer
  import Jwt

  ghost predicate CredentialFree(t: string, test: string -> bool) {
    forall k :: !CredentialAt(t, k, test)
  }

  // The three cases of the scan.

  lemma StopLaw(t: string, scan: string -> string, next: string -> Step, test: string -> bool)
    requires Does(scan, next, test) && next(t).Stop?
    ensures scan(t) == t && FirstBearer(t, 0) == None
  {
    assert NextBearer(t, test) == Stop && Scan(t, next) == t;
  }

  lemma CutLaw(p: string, x: string, rest: string, scan: string -> string, next: string -> Step, test: string -> bool)
    requires Does(scan, next, test) && next(p + (x + rest)) == Cut(|p|, |x|)
    ensures scan(p + (x + rest)) == p + (STARS + scan(rest))
  {
    ScanCut(p, x, rest, next);
  }

  lemma CutFacts(t: string, scan: string -> string, next: string -> Step, test: string -> bool)
    requires Does(scan, next, test) && next(t).Cut?
    ensures next(t).at >= 7 && FirstBearer(t, 0) == Some(next(t).at - 7) && CredentialAt(t, next(t).at - 7, test)
    ensures next(t).at + next(t).length == WordEnd(t, next(t).at)
  {
    assert next(t) == NextBearer(t, test);
  }

  lemma KeepLaw(p: string, x: string, rest: string, scan: string -> string, next: string -> Step, test: string -> bool)
    requires Does(scan, next, test) && next(p + (x + rest)) == Keep(|p|, |x|)
    ensures scan(p + (x + rest)) == (p + x) + scan(rest)
  {
    ScanKeep(p, x, rest, next);
  }

  lemma KeepFacts(t: string, scan: string -> string, next: string -> Step, test: string -> bool)
    requires Does(scan, next, test) && next(t).Keep?
    ensures FirstBearer(t, 0) == Some(next(t).at) && !CredentialAt(t, next(t).at, test) && next(t).length == 1
  {
    assert next(t) == NextBearer(t, test);
  }

  lemma BearerSuffix(q: string, v: string, j: nat)
    ensures BearerAt(q + v, |q| + j) == BearerAt(v, j)
  {
    assert (q + v)[|q|..] == v;
    BearerShift(q + v, |q|, j);
  }

  // How far the output agrees with the input.

  /** The texts agree up to `n`, where the first replacement stands in `u`, or throughout. */
  ghost predicate AgreeUpTo(t: string, u: string, n: nat) {
    && n <= |t| && n <= |u|
    && (forall i :: 0 <= i < n ==> t[i] == u[i])
    && ((u == t && n == |t|) || (n >= 7 && n < |u| && u[n] == '*' && BearerAt(t, n - 7)))
  }

  lemma Prepend(q: string, rest: string, v: string, m: nat, t: string, u: string, n: nat)
    requires AgreeUpTo(rest, v, m) && t == q + rest && u == q + v && n == |q| + m
    ensures AgreeUpTo(t, u, n)
  {
    if m >= 7 {
      BearerSuffix(q, rest, m - 7);
    }
  }

  lemma AgreesToCut(p: string, more: string, v: string, t: string, u: string)
    requires t == p + more && u == p + (STARS + v) && |p| >= 7 && BearerAt(t, |p| - 7)
    ensures AgreeUpTo(t, u, |p|)
  {
  }

  lemma {:induction false} Agreement(t: string, scan: string -> string, next: string -> Step, test: string -> bool)
    returns (n: nat)
    requires Does(scan, next, test)
    ensures AgreeUpTo(t, scan(t), n)
    ensures next(t).Cut? ==> n == next(t).at
    ensures next(t).Keep? ==> n > next(t).at && (scan(t) == t || n > next(t).at + 7)
    decreases |t|
  {
    var step := next(t);
    assert Fits(t, step);
    if step.Stop? {
      StopLaw(t, scan, next, test);
      return |t|;
    }
    var p, x, rest := TakeApart(t, step);
    if step.Cut? {
      CutFacts(t, scan, next, test);
      CutLaw(p, x, rest, scan, next, test);
      n := |p|;
      AgreesToCut(p, x + rest, scan(rest), t, scan(t));
    } else {
      var m := Agreement(rest, scan, next, test);
      KeepLaw(p, x, rest, scan, next, test);
      ConcatAssoc(p, x, rest);
      n := |p + x| + m;
      Prepend(p + x, rest, scan(rest), m, t, scan(t), n);
    }
  }

  lemma SameOccurrence(t: string, u: string, n: nat, j: nat)
    requires AgreeUpTo(t, u, n) && j <= n && BearerAt(u, j)
    ensures j + 7 <= n && BearerAt(t, j)
  {
  }

  /** An occurrence before the first replacement has the same token after it. */
  lemma SameToken(t: string, u: string, n: nat, j: nat)
    requires AgreeUpTo(t, u, n) && BearerAt(t, j) && BearerAt(u, j) && (u == t || j + 7 < n)
    ensures TokenAt(u, j + 7) == TokenAt(t, j + 7)
  {
    if u != t {
      NoOverlap(t, j, n - 7);
      assert !NotBlank(t[n - 1]);
      var e := WordEnd(t, j + 7);
      assert e <= n - 1;
      WordEndIs(u, j + 7, e);
      assert u[j + 7..e] == t[j + 7..e];
    }
  }

  lemma SameCredential(t: string, u: string, n: nat, j: nat, test: string -> bool)
    requires AgreeUpTo(t, u, n) && BearerAt(u, j) && j + 7 <= n && (u == t || j + 7 < n)
    ensures CredentialAt(u, j, test) == CredentialAt(t, j, test)
  {
    SameOccurrence(t, u, n, j);
    SameToken(t, u, n, j);
    assert Boundary(u, j) == Boundary(t, j);
  }

  // Nothing is left to replace.

  lemma LaterCredential(q: string, v: string, u: string, j: nat, test: string -> bool)
    requires u == q + v && |q| <= j && CredentialAt(u, j, test) && !BearerAt(v, 0)
    ensures CredentialAt(v, j - |q|, test)
  {
    assert u[|q|..] == v;
    BearerSuffix(q, v, j - |q|);
    CredentialShift(u, |q|, j, test);
  }

  lemma NoneInKept(t: string, u: string, n: nat, q: string, v: string, test: string -> bool)
    requires AgreeUpTo(t, u, n) && u == q + v && q != "" && |q| <= n && (u == t || n > |q| + 6)
    requires FirstBearer(t, 0) == Some(|q| - 1) && !CredentialAt(t, |q| - 1, test)
    requires CredentialFree(v, test) && !BearerAt(v, 0)
    ensures CredentialFree(u, test)
  {
    forall j: nat
      ensures !CredentialAt(u, j, test)
    {
      if CredentialAt(u, j, test) {
        if j < |q| {
          SameOccurrence(t, u, n, j);
          assert j == |q| - 1;
          SameCredential(t, u, n, j, test);
        } else {
          LaterCredential(q, v, u, j, test);
        }
      }
    }
  }

  /** The stars after the first "bearer " are the whole word there. */
  lemma StarsAreTheToken(p: string, v: string, u: string)
    requires u == p + (STARS + v) && (v == "" || !NotBlank(v[0]))
    ensures TokenAt(u, |p|) == STARS
  {
    WordEndIs(u, |p|, |p| + 8);
    assert u[|p|..|p| + 8] == STARS;
  }

  lemma NoneAroundStars(t: string, u: string, p: string, v: string, test: string -> bool)
    requires AgreeUpTo(t, u, |p|) && u == p + (STARS + v) && |p| >= 7 && FirstBearer(t, 0) == Some(|p| - 7)
    requires v == "" || !NotBlank(v[0])
    requires CredentialFree(v, test) && !test(STARS)
    ensures CredentialFree(u, test)
  {
    assert forall i :: |p| <= i < |p| + 8 ==> u[i] == '*';
    forall j: nat
      ensures !CredentialAt(u, j, test)
    {
      if CredentialAt(u, j, test) {
        if j <= |p| {
          SameOccurrence(t, u, |p|, j);
          StarsAreTheToken(p, v, u);
        } else if j >= |p| + 8 {
          ConcatAssoc(p, STARS, v);
          LaterCredential(p + STARS, v, u, j, test);
        }
      }
    }
  }

  /** What a scan leaves, begins as the text began, unless the text begins with a credential. */
  lemma FirstCharacter(t: string, scan: string -> string, next: string -> Step, test: string -> bool)
    requires Does(scan, next, test)
    ensures t == "" ==> scan(t) == ""
    ensures t != "" ==> scan(t) != "" && scan(t)[0] == t[0]
  {
    var n := Agreement(t, scan, next, test);
  }

  /** No "bearer " as a word is left with a credential after it. */
  lemma {:induction false} NoCredentialIsLeft(t: string, scan: string -> string, next: string -> Step,
                                              test: string -> bool)
    requires Does(scan, next, test) && !test(STARS)
    ensures CredentialFree(scan(t), test)
    decreases |t|
  {
    var step := next(t);
    assert Fits(t, step);
    if step.Stop? {
      StopLaw(t, scan, next, test);
      return;
    }
    var p, x, rest := TakeApart(t, step);
    var n := Agreement(t, scan, next, test);
    NoCredentialIsLeft(rest, scan, next, test);
    FirstCharacter(rest, scan, next, test);
    if step.Cut? {
      CutFacts(t, scan, next, test);
      CutLaw(p, x, rest, scan, next, test);
      NoneAroundStars(t, scan(t), p, scan(rest), test);
    } else {
      KeepFacts(t, scan, next, test);
      KeepLaw(p, x, rest, scan, next, test);
      NoneInKept(t, scan(t), n, p + x, scan(rest), test);
    }
  }

  /** A text with nothing to replace is left as it is. */
  lemma {:induction false} NothingToReplace(t: string, scan: string -> string, next: string -> Step,
                                            test: string -> bool)
    requires Does(scan, next, test) && CredentialFree(t, test)
    ensures scan(t) == t
    decreases |t|
  {
    var step := next(t);
    assert Fits(t, step);
    if step.Stop? {
      StopLaw(t, scan, next, test);
    } else if step.Cut? {
      CutFacts(t, scan, next, test);
    } else {
      var p, x, rest := TakeApart(t, step);
      KeepFacts(t, scan, next, test);
      RestIsFree(t, p + x, rest, test);
      NothingToReplace(rest, scan, next, test);
      KeepLaw(p, x, rest, scan, next, test);
      ConcatAssoc(p, x, rest);
    }
  }

  lemma RestIsFree(t: string, q: string, rest: string, test: string -> bool)
    requires t == q + rest && q != "" && BearerAt(t, |q| - 1) && CredentialFree(t, test)
    ensures CredentialFree(rest, test)
  {
    NotNext(t, |q| - 1);
    BearerSuffix(q, rest, 0);
    forall j: nat
      ensures !CredentialAt(rest, j, test)
    {
      if j > 0 && CredentialAt(rest, j, test) {
        BearerSuffix(q, rest, j);
        assert t[|q|..] == rest;
        CredentialShift(t, |q|, |q| + j, test);
      }
    }
  }

  // The same for looksLikeCredential.

  lemma StarsAreNoCredential()
    ensures Does(Redact, Next, LooksLikeCredential) && !LooksLikeCredential(STARS)
  {
    assert STARS[0] == '*' && Jwt.PREFIX[0] == 'e' && GOOGLE[0] == 'y';
  }

  /** After redactBearer no "bearer " stands as a word before a credential. */
  lemma BearerIsGone(t: string, k: nat)
    ensures !CredentialAt(Redact(t), k, LooksLikeCredential)
  {
    StarsAreNoCredential();
    NoCredentialIsLeft(t, Redact, Next, LooksLikeCredential);
  }

  /** redactBearer changes a text exactly when a credential stands in it. */
  lemma RedactsIfNeeded(t: string)
    ensures Redact(t) == t <==> forall k :: !CredentialAt(t, k, LooksLikeCredential)
  {
    StarsAreNoCredential();
    if CredentialFree(t, LooksLikeCredential) {
      NothingToReplace(t, Redact, Next, LooksLikeCredential);
    }
    NoCredentialIsLeft(t, Redact, Next, LooksLikeCredential);
  }

  lemma RedactIdempotent(t: string)
    ensures Redact(Redact(t)) == Redact(t)
  {
    forall k: nat
      ensures !CredentialAt(Redact(t), k, LooksLikeCredential)
    {
      BearerIsGone(t, k);
    }
    RedactsIfNeeded(Redact(t));
  }

  lemma CutIsToken(p: string, x: string, rest: string)
    requires Next(p + (x + rest)) == Cut(|p|, |x|)
    ensures LooksLikeCredential(x)
  {
    StarsAreNoCredential();
    CutFacts(p + (x + rest), Redact, Next, LooksLikeCredential);
    assert (p + (x + rest))[|p|..|p| + |x|] == x;
  }

  /** Outside the replaced credentials the text is untouched. */
  lemma OnlyCredentialsAreCut(t: string) returns (pieces: seq<Piece>)
    ensures Original(pieces) == t && Shown(pieces) == Redact(t)
    ensures forall piece :: piece in pieces && piece.Replaced? ==> LooksLikeCredential(piece.text)
  {
    pieces := OnlyCutsChange(t, Next);
    forall piece | piece in pieces && piece.Replaced?
      ensures LooksLikeCredential(piece.text)
    {
      var p: string, rest: string :| Next(p + (piece.text + rest)) == Cut(|p|, |piece.text|);
      CutIsToken(p, piece.text, rest);
    }
  }

  /** The first `n` characters are token characters, and only padding follows. */
  predicate IsPadded(v: string, n: nat) {
    && 1 <= n <= |v|
    && (forall i :: 0 <= i < n ==> IsOpaqueChar(v[i]))
    && (forall i :: n <= i < |v| ==> v[i] == '=')
  }

  /** The opaque form is the b64token of RFC 6750, at least twenty characters long. */
  lemma OpaqueExactly(v: string)
    ensures IsOpaqueToken(v) <==> |v| >= MIN_OPAQUE && exists n :: IsPadded(v, n)
  {
    if n :| IsPadded(v, n) {
      SpanUnique(v, IsOpaqueChar, n);
    }
    if IsOpaqueToken(v) {
      assert IsPadded(v, Span(v, IsOpaqueChar));
    }
  }
}
