/** The first two passes of redactKnownTokens, one after the other: bearer credentials, then three-part tokens. */
module KnownTokens {
  import opened Basics
  import opened Scanning
  import opened Texts
  import opened JwtLeftovers
  import Bearer
  import BearerLaws
  import Jwt
  import JwtHeads
  import JwtLaws

  function RedactTokens(t: string): string {
    Jwt.Redact(Bearer.Redact(t))
  }

  method RedactBoth(text: string) returns (out: string)
    ensures out == RedactTokens(text)
  {
    out := Bearer.RedactBearer(text);
    out := Jwt.RedactJwts(out);
  }

  // The second pass puts stars in place of tokens that end where no token character follows.

  lemma {:induction false} EndOfSegments(t: string, segments: seq<string>)
    requires segments != [] && Jwt.StartsWith(t, segments)
    ensures var n := Jwt.JoinedLength(segments); n <= |t| && (n < |t| ==> !Jwt.IsJwtChar(t[n]))
  {
    if |segments| > 1 {
      EndOfSegments(t[|segments[0]| + 1..], segments[1..]);
    }
  }

  lemma EndOfToken(x: string, rest: string)
    requires Jwt.JwtLength(x + rest) == Some(|x|)
    ensures rest == "" || !Jwt.IsJwtChar(rest[0])
  {
    var segments := Jwt.SegmentsFound(x + rest, 2);
    Jwt.SegmentsDecide(x + rest, segments);
    EndOfSegments(x + rest, segments);
    assert rest != "" ==> (x + rest)[|x|] == rest[0];
  }

  /** The first token that is replaced, and what stands before and behind it. */
  ghost predicate Replaces(t: string, u: string, q: string, x: string, rest: string, after: string) {
    && t == q + (x + rest) && u == q + (STARS + after) && x != ""
    && (rest == "" || !Jwt.IsJwtChar(rest[0]))
    && (after == "" || (rest != "" && after[0] == rest[0]))
  }

  lemma RestBegins(x: string, rest: string)
    requires Jwt.JwtLength(x + rest) == Some(|x|)
    ensures rest == "" || !Jwt.IsJwtChar(rest[0])
    ensures Jwt.Redact(rest) == "" || (rest != "" && Jwt.Redact(rest)[0] == rest[0])
  {
    EndOfToken(x, rest);
    if rest == "" {
      Jwt.NoneLeft(rest);
    } else {
      JwtLaws.KeepsFirst(rest);
    }
  }

  lemma ReplacesBehind(a: string, t: string, u: string, q: string, x: string, rest: string, after: string)
    requires Replaces(t, u, q, x, rest, after)
    ensures Replaces(a + t, a + u, a + q, x, rest, after)
  {
    ConcatAssoc(a, q, x + rest);
    ConcatAssoc(a, q, STARS + after);
  }

  lemma {:induction false} FirstReplaced(t: string) returns (q: string, x: string, rest: string)
    ensures Jwt.Redact(t) == t || (Replaces(t, Jwt.Redact(t), q, x, rest, Jwt.Redact(rest)) && |rest| < |t|)
    decreases |t|
  {
    q, x, rest := "", "", "";
    if IndexOf(t, Jwt.PREFIX, 0).None? {
      Jwt.NoneLeft(t);
    } else {
      var p, y, more := FirstStep(t);
      if Jwt.JwtLength(y + more).Some? {
        q, x, rest := p, y, more;
        RestBegins(x, rest);
      } else {
        q, x, rest := FirstReplaced(more);
        if Jwt.Redact(more) != more {
          ReplacesBehind(p + y, more, Jwt.Redact(more), q, x, rest, Jwt.Redact(rest));
          q := p + y + q;
        }
      }
    }
  }

  // It does not make a credential.

  /** Words with a star are no credentials. */
  ghost predicate RefusesStars(test: string -> bool) {
    forall w: string, i :: 0 <= i < |w| && w[i] == '*' ==> !test(w)
  }

  lemma StarInWord(u: string, from: nat, n: nat)
    requires from <= n < |u| && u[n] == '*' && n < Bearer.WordEnd(u, from)
    ensures var w := Bearer.TokenAt(u, from); n - from < |w| && w[n - from] == '*'
  {
  }

  lemma CredentialBefore(t: string, u: string, q: string, k: nat, test: string -> bool)
    requires RefusesStars(test) && Bearer.CredentialAt(u, k, test) && k <= |q| < |u|
    requires q <= t && q <= u && u[|q|] == '*'
    ensures Bearer.CredentialAt(t, k, test)
  {
    var n := |q|;
    assert forall i :: 0 <= i < n ==> t[i] == q[i] == u[i];
    assert k + 7 <= n;
    var e := Bearer.WordEnd(u, k + 7);
    var w := Bearer.TokenAt(u, k + 7);
    if e > n {
      StarInWord(u, k + 7, n);
    }
    assert e < n;
    Bearer.WordEndIs(t, k + 7, e);
    assert t[k + 7..e] == w;
  }

  lemma CredentialBehind(q: string, v: string, k: nat, m: nat, t: string, test: string -> bool)
    requires t == q + v && k == |q| + m && m > 0
    ensures Bearer.CredentialAt(t, k, test) == Bearer.CredentialAt(v, m, test)
  {
    assert t[|q|..] == v;
    BearerLaws.BearerSuffix(q, v, m);
    if Bearer.BearerAt(t, k) {
      Bearer.CredentialShift(t, |q|, k, test);
    }
  }

  lemma NoneRightBehind(t: string, u: string, q: string, x: string, rest: string, after: string)
    requires Replaces(t, u, q, x, rest, after)
    ensures !Bearer.BearerAt(after, 0)
  {
  }

  lemma BehindStars(t: string, u: string, q: string, x: string, rest: string, after: string, k: nat,
                    test: string -> bool) returns (m: nat)
    requires RefusesStars(test) && Replaces(t, u, q, x, rest, after) && Bearer.CredentialAt(u, k, test) && k > |q|
    ensures m > 0 && Bearer.CredentialAt(after, m, test)
  {
    var shown := q + STARS;
    ConcatAssoc(q, STARS, after);
    assert forall i :: |q| <= i < |shown| ==> u[i] == '*';
    m := k - |shown|;
    NoneRightBehind(t, u, q, x, rest, after);
    BearerLaws.BearerSuffix(shown, after, m);
    CredentialBehind(shown, after, k, m, u, test);
  }

  lemma {:induction false} CredentialWasThere(t: string, k: nat, test: string -> bool) returns (j: nat)
    requires RefusesStars(test) && Bearer.CredentialAt(Jwt.Redact(t), k, test)
    ensures Bearer.CredentialAt(t, j, test) && (k > 0 ==> j > 0)
    decreases |t|
  {
    var q, x, rest := FirstReplaced(t);
    var u, after := Jwt.Redact(t), Jwt.Redact(rest);
    j := k;
    if u != t {
      if k <= |q| {
        CredentialBefore(t, u, q, k, test);
      } else {
        var m := BehindStars(t, u, q, x, rest, after, k, test);
        var i := CredentialWasThere(rest, m, test);
        j := |q + x| + i;
        ConcatAssoc(q, x, rest);
        CredentialBehind(q + x, rest, j, i, t, test);
      }
    }
  }

  lemma CredentialHasNoStar(w: string, i: nat)
    requires Bearer.LooksLikeCredential(w) && i < |w|
    ensures w[i] != '*'
  {
    if Jwt.IsWholeToken(w) {
      TokenCharacters(w);
    }
    assert forall m :: 0 <= m < 5 ==> Bearer.GOOGLE[m] != '*';
    if Bearer.IsGoogleToken(w) && i < 5 {
      assert w[i] == Bearer.GOOGLE[i];
    }
  }

  /** After both passes no "bearer " stands as a word before a credential: the second pass makes none. */
  lemma NoCredentialInBoth(t: string, k: nat)
    ensures !Bearer.CredentialAt(RedactTokens(t), k, Bearer.LooksLikeCredential)
  {
    var test := Bearer.LooksLikeCredential;
    if Bearer.CredentialAt(RedactTokens(t), k, test) {
      forall w: string, i | 0 <= i < |w| && w[i] == '*'
        ensures !test(w)
      {
        if test(w) {
          CredentialHasNoStar(w, i);
        }
      }
      var j := CredentialWasThere(Bearer.Redact(t), k, test);
      BearerLaws.BearerIsGone(t, j);
    }
  }

  /** Redacting twice is redacting once. */
  lemma BothIdempotent(t: string)
    ensures RedactTokens(RedactTokens(t)) == RedactTokens(t)
  {
    var u := RedactTokens(t);
    forall k: nat
      ensures !Bearer.CredentialAt(u, k, Bearer.LooksLikeCredential)
    {
      NoCredentialInBoth(t, k);
    }
    BearerLaws.RedactsIfNeeded(u);
    JwtHeads.RedactIdempotent(Bearer.Redact(t));
  }
}
