/**
 A text is changed exactly when a token stands at the first prefix of its run. Such tokens are
 replaced, and so may be what follows them directly, as the scan goes on behind a replaced token.
 */
module JwtHeads {
  import opened Basics
  import opened Scanning
  import opened Texts
  import opened Jwt
  import opened JwtLaws

  /** The run of token characters and dots is interrupted between `j` and `k`. */
  ghost predicate Broken(t: string, j: nat, k: nat) {
    exists m :: j <= m < k && m < |t| && !InRun(t[m])
  }

  /** A token stands at `k`, and no prefix before it in the same run. */
  ghost predicate TokenAtHead(t: string, k: nat) {
    && At(t, k, PREFIX) && JwtLength(t[k..]).Some?
    && forall j: nat :: j < k && At(t, j, PREFIX) ==> Broken(t, j, k)
  }

  ghost predicate NoTokenAtHead(t: string) {
    forall k :: !TokenAtHead(t, k)
  }

  lemma AtSuffix(q: string, v: string, j: nat)
    ensures At(q + v, |q| + j, PREFIX) == At(v, j, PREFIX)
  {
    assert (q + v)[|q|..] == v;
    AtShift(q + v, |q|, j, PREFIX);
  }

  lemma BrokenSuffix(q: string, v: string, j: nat, k: nat)
    ensures Broken(q + v, |q| + j, |q| + k) == Broken(v, j, k)
  {
    var u := q + v;
    if m :| |q| + j <= m < |q| + k && m < |u| && !InRun(u[m]) {
      assert u[m] == v[m - |q|];
    }
    if m :| j <= m < k && m < |v| && !InRun(v[m]) {
      assert u[|q| + m] == v[m];
    }
  }

  /** A token at a head of the whole, behind `q`, is one of what is behind `q`. */
  lemma HeadOfSuffix(q: string, v: string, u: string, k: nat)
    requires u == q + v && TokenAtHead(u, |q| + k)
    ensures TokenAtHead(v, k)
  {
    AtSuffix(q, v, k);
    assert u[|q| + k..] == v[k..];
    forall j: nat | j < k && At(v, j, PREFIX)
      ensures Broken(v, j, k)
    {
      AtSuffix(q, v, j);
      BrokenSuffix(q, v, j, k);
    }
  }

  lemma NoneAfterCut(p: string, rest: string, v: string, u: string)
    requires u == p + (STARS + v) && NoTokenAtHead(v) && forall i :: 0 <= i < |p| ==> !At(p + rest, i, PREFIX)
    ensures NoTokenAtHead(u)
  {
    ConcatAssoc(p, STARS, v);
    forall k: nat
      ensures !TokenAtHead(u, k)
    {
      if k < |p + STARS| {
        NoPrefixAcross(p, rest, v, k);
      } else if TokenAtHead(u, k) {
        HeadOfSuffix(p + STARS, v, u, k - |p + STARS|);
      }
    }
  }

  lemma NotAHead(u: string, first: nat, k: nat)
    requires first < k <= |u| && At(u, first, PREFIX) && forall i :: first <= i < k ==> InRun(u[i])
    ensures !TokenAtHead(u, k)
  {
    assert !Broken(u, first, k);
  }

  lemma NoneAfterKept(p: string, x: string, v: string, u: string)
    requires u == (p + x) + v && NoTokenAtHead(v) && JwtLength(x + v) == None
    requires At(u, |p|, PREFIX) && forall i :: 0 <= i < |p| ==> !At(u, i, PREFIX)
    requires forall i :: 0 <= i < |x| ==> InRun(x[i])
    ensures NoTokenAtHead(u)
  {
    assert u[|p|..] == x + v;
    var n := |p + x|;
    assert forall i :: |p| <= i < n ==> u[i] == x[i - |p|];
    forall k: nat
      ensures !TokenAtHead(u, k)
    {
      if |p| < k < n {
        NotAHead(u, |p|, k);
      } else if k >= n && TokenAtHead(u, k) {
        HeadOfSuffix(p + x, v, u, k - n);
      }
    }
  }

  /** A run that is kept stays one in the output: nothing that follows it joins it. */
  lemma KeptRun(p: string, x: string, rest: string)
    requires IndexOf(p + (x + rest), PREFIX, 0) == Some(|p|) && JwtLength(x + rest) == None
    requires Span(x + rest, InRun) == |x| >= 3 && NoTokenAtHead(Redact(rest))
    ensures NoTokenAtHead(Redact(p + (x + rest)))
  {
    var after := Redact(rest);
    RedactKeep(p, x, rest);
    assert forall i :: 0 <= i < |x| ==> (x + rest)[i] == x[i];
    if rest != "" {
      assert (x + rest)[|x|] == rest[0];
      KeepsFirst(rest);
    } else {
      NoneLeft("");
    }
    LengthWithinRun(x, rest, 2);
    LengthWithinRun(x, after, 2);
    SamePrefixes(p, x, rest, after);
    NoneAfterKept(p, x, after, (p + x) + after);
  }

  lemma SamePrefixes(p: string, x: string, rest: string, after: string)
    requires |x| >= 3
    ensures forall j: nat :: j <= |p| ==> At((p + x) + after, j, PREFIX) == At(p + (x + rest), j, PREFIX)
  {
    ConcatAssoc(p, x, rest);
    forall j: nat | j <= |p|
      ensures At((p + x) + after, j, PREFIX) == At(p + (x + rest), j, PREFIX)
    {
      AtWithin(p + x, rest, j, PREFIX);
      AtWithin(p + x, after, j, PREFIX);
    }
  }

  /** After redactJwts no token stands at the first prefix of its run. */
  lemma {:induction false} NoHeadTokenIsLeft(t: string)
    ensures NoTokenAtHead(Redact(t))
    decreases |t|
  {
    var step := NextJwt(t);
    if step.Stop? {
      NoneLeft(t);
      return;
    }
    var p, x, rest := TakeApart(t, step);
    NoHeadTokenIsLeft(rest);
    if step.Cut? {
      RedactCut(p, x, rest);
      NoneAfterCut(p, x + rest, Redact(rest), Redact(t));
    } else {
      KeptRun(p, x, rest);
    }
  }

  lemma NotAtStart(v: string)
    requires v != "" && !InRun(v[0])
    ensures !At(v, 0, PREFIX)
  {
    if At(v, 0, PREFIX) {
      PrefixAt(v, 0);
    }
  }

  lemma HeadOfWhole(q: string, v: string, k: nat)
    requires TokenAtHead(v, k) && !InRun(v[0])
    ensures TokenAtHead(q + v, |q| + k)
  {
    var u := q + v;
    AtSuffix(q, v, k);
    assert u[|q| + k..] == v[k..] && u[|q|] == v[0];
    NotAtStart(v);
    forall j: nat | j < |q| + k && At(u, j, PREFIX)
      ensures Broken(u, j, |q| + k)
    {
      if j >= |q| {
        AtSuffix(q, v, j - |q|);
        BrokenSuffix(q, v, j - |q|, k);
      }
    }
  }

  lemma {:induction false} NothingToReplace(t: string)
    requires NoTokenAtHead(t)
    ensures Redact(t) == t
    decreases |t|
  {
    var step := NextJwt(t);
    if step.Stop? {
      NoneLeft(t);
      return;
    }
    var p, x, rest := TakeApart(t, step);
    if step.Cut? {
      assert TokenAtHead(t, |p|);
    } else {
      RedactKeep(p, x, rest);
      ConcatAssoc(p, x, rest);
      forall k: nat
        ensures !TokenAtHead(rest, k)
      {
        if TokenAtHead(rest, k) {
          assert rest[0] == (x + rest)[|x|];
          HeadOfWhole(p + x, rest, k);
        }
      }
      NothingToReplace(rest);
    }
  }

  /** redactJwts changes a text exactly when a token stands at the first prefix of its run. */
  lemma RedactsIfNeeded(t: string)
    ensures Redact(t) == t <==> forall k :: !TokenAtHead(t, k)
  {
    if NoTokenAtHead(t) {
      NothingToReplace(t);
    }
    NoHeadTokenIsLeft(t);
  }

  lemma RedactIdempotent(t: string)
    ensures Redact(Redact(t)) == Redact(t)
  {
    NoHeadTokenIsLeft(t);
    NothingToReplace(Redact(t));
  }
}
