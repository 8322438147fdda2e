/** What must not be shown after "bearer ", written out character by character, and that none of it is. */
module CredentialShapes {
  import opened Basics
  import opened Texts
  import Bearer
  import BearerLaws
  import Jwt
  import JwtHeads
  import JwtLaws
  import JwtLeftovers
  import KnownTokens

  predicate IsAlphanumeric(c: char) {
    'A' <= c <= 'Z' || 'a' <= c <= 'z' || '0' <= c <= '9'
  }

  /** A character of base64url. */
  predicate IsUrlChar(c: char) {
    IsAlphanumeric(c) || c == '_' || c == '-'
  }

  /** A character of a b64token (RFC 6750, section 2.1) before its padding. */
  predicate IsTokenChar(c: char) {
    IsAlphanumeric(c) || c == '.' || c == '_' || c == '~' || c == '+' || c == '/' || c == '-'
  }

  predicate AllUrlChars(w: string) {
    forall i :: 0 <= i < |w| ==> IsUrlChar(w[i])
  }

  /** `n` token characters, and padding behind them. */
  predicate IsPaddedTo(w: string, n: nat) {
    && 1 <= n <= |w|
    && (forall i :: 0 <= i < n ==> IsTokenChar(w[i]))
    && (forall i :: n <= i < |w| ==> w[i] == '=')
  }

  ghost predicate IsB64Token(w: string) {
    |w| >= 20 && exists n: nat :: IsPaddedTo(w, n)
  }

  predicate IsGoogleAccess(w: string) {
    |w| >= 6 && w[..5] == "ya29." && AllUrlChars(w[5..])
  }

  predicate IsLongSegment(x: string) {
    |x| >= 16 && AllUrlChars(x)
  }

  ghost predicate IsThreeParts(w: string, x: string, y: string, z: string) {
    && w == x + ("." + (y + ("." + z)))
    && IsLongSegment(x) && IsLongSegment(y) && IsLongSegment(z)
    && x[..3] == "eyJ"
  }

  ghost predicate IsSecret(w: string) {
    IsB64Token(w) || IsGoogleAccess(w) || exists x, y, z :: IsThreeParts(w, x, y, z)
  }

  predicate IsBlank(c: char) {
    c == ' ' || c == '\t' || c == '\n' || c == '\r'
  }

  /** "bearer " as a word at `k`, and behind it a secret that reaches to `e`, where a blank or the end is. */
  ghost predicate SecretAt(t: string, k: nat, e: nat) {
    && k + 7 <= e <= |t|
    && t[k] in ['b', 'B'] && t[k + 1] in ['e', 'E'] && t[k + 2] in ['a', 'A'] && t[k + 3] in ['r', 'R']
    && t[k + 4] in ['e', 'E'] && t[k + 5] in ['r', 'R'] && t[k + 6] == ' '
    && (k == 0 || !IsAlphanumeric(t[k - 1]))
    && (forall i :: k + 7 <= i < e ==> !IsBlank(t[i]))
    && (e < |t| ==> IsBlank(t[e]))
    && IsSecret(t[k + 7..e])
  }

  lemma SegmentIsLong(x: string)
    ensures Jwt.IsSegment(x) <==> IsLongSegment(x)
  {
  }

  lemma DotAfter(w: string, x: string, rest: string)
    requires x <= w && |x| < |w| && w[|x|] == '.' && rest == w[|x| + 1..]
    ensures w == x + ("." + rest)
  {
  }

  lemma LastPart(rest: string, segments: seq<string>)
    requires |segments| == 1 && Jwt.StartsWith(rest, segments) && Jwt.JoinedLength(segments) == |rest|
    ensures segments[0] == rest && Jwt.IsSegment(rest)
  {
  }

  lemma PartsOfToken(w: string) returns (x: string, y: string, z: string)
    requires Jwt.IsWholeToken(w)
    ensures IsThreeParts(w, x, y, z)
  {
    var segments := Jwt.SegmentsFound(w, 2);
    Jwt.SegmentsDecide(w, segments);
    var more, rest, others, last;
    x, more, others := Jwt.StartsWithMore(w, segments);
    y, rest, last := Jwt.StartsWithMore(more, others);
    DotAfter(w, x, more);
    DotAfter(more, y, rest);
    LastPart(rest, last);
    z := rest;
    assert x[..3] == w[..3];
  }

  lemma WholeTokenExactly(w: string)
    ensures Jwt.IsWholeToken(w) <==> exists x, y, z :: IsThreeParts(w, x, y, z)
  {
    if Jwt.IsWholeToken(w) {
      var x, y, z := PartsOfToken(w);
    }
    if x, y, z :| IsThreeParts(w, x, y, z) {
      JwtLaws.SegmentsMakeAToken(x, y, z);
    }
  }

  lemma GoogleExactly(w: string)
    ensures Bearer.IsGoogleToken(w) <==> IsGoogleAccess(w)
  {
    if |w| >= 6 {
      assert forall i :: 5 <= i < |w| ==> w[i] == w[5..][i - 5];
    }
  }

  lemma B64TokenExactly(w: string)
    ensures Bearer.IsOpaqueToken(w) <==> IsB64Token(w)
  {
    BearerLaws.OpaqueExactly(w);
    forall n: nat
      ensures BearerLaws.IsPadded(w, n) <==> IsPaddedTo(w, n)
    {
    }
  }

  /** looksLikeCredential accepts the three shapes and nothing else. */
  lemma LooksExactly(w: string)
    ensures Bearer.LooksLikeCredential(w) <==> IsSecret(w)
  {
    WholeTokenExactly(w);
    GoogleExactly(w);
    B64TokenExactly(w);
  }

  lemma BearerExactly(t: string, k: nat)
    requires k + 7 <= |t|
    ensures Bearer.BearerAt(t, k) <==>
      && t[k] in ['b', 'B'] && t[k + 1] in ['e', 'E'] && t[k + 2] in ['a', 'A'] && t[k + 3] in ['r', 'R']
      && t[k + 4] in ['e', 'E'] && t[k + 5] in ['r', 'R'] && t[k + 6] == ' '
  {
  }

  lemma SecretExactly(t: string, k: nat)
    ensures Bearer.CredentialAt(t, k, Bearer.LooksLikeCredential) <==> exists e: nat :: SecretAt(t, k, e)
  {
    if k + 7 <= |t| {
      BearerExactly(t, k);
      var w := Bearer.WordEnd(t, k + 7);
      LooksExactly(t[k + 7..w]);
      assert forall i :: 0 <= i < |t| ==> (Bearer.NotBlank(t[i]) <==> !IsBlank(t[i]));
      if e: nat :| SecretAt(t, k, e) {
        Bearer.WordEndIs(t, k + 7, e);
      }
      if Bearer.CredentialAt(t, k, Bearer.LooksLikeCredential) {
        assert SecretAt(t, k, w);
      }
    }
  }

  /** After redactBearer no secret stands behind "bearer ", and a text is changed exactly when one does. */
  lemma BearerSecretsAreGone(t: string)
    ensures forall k, e :: !SecretAt(Bearer.Redact(t), k, e)
    ensures Bearer.Redact(t) != t <==> exists k, e :: SecretAt(t, k, e)
  {
    NoneWithoutCredential(Bearer.Redact(t));
    NoneWithoutCredential(t);
    forall k: nat
      ensures !Bearer.CredentialAt(Bearer.Redact(t), k, Bearer.LooksLikeCredential)
    {
      BearerLaws.BearerIsGone(t, k);
    }
    BearerLaws.RedactsIfNeeded(t);
  }

  lemma NoneWithoutCredential(t: string)
    ensures (exists k: nat, e: nat :: SecretAt(t, k, e)) <==>
            exists k: nat :: Bearer.CredentialAt(t, k, Bearer.LooksLikeCredential)
  {
    if k: nat, e: nat :| SecretAt(t, k, e) {
      SecretExactly(t, k);
    }
    if k: nat :| Bearer.CredentialAt(t, k, Bearer.LooksLikeCredential) {
      SecretExactly(t, k);
    }
  }

  /**
   The same after both passes. A text is changed exactly when such a secret or a three-part token
   at a head stands in it.
   */
  lemma SecretsAreGone(t: string)
    ensures forall k, e :: !SecretAt(KnownTokens.RedactTokens(t), k, e)
    ensures KnownTokens.RedactTokens(t) != t <==>
            (exists k, e :: SecretAt(t, k, e)) || exists k :: JwtHeads.TokenAtHead(t, k)
  {
    var u := KnownTokens.RedactTokens(t);
    NoneWithoutCredential(u);
    forall k: nat
      ensures !Bearer.CredentialAt(u, k, Bearer.LooksLikeCredential)
    {
      KnownTokens.NoCredentialInBoth(t, k);
    }
    BearerSecretsAreGone(t);
    JwtHeads.RedactsIfNeeded(t);
  }
}
