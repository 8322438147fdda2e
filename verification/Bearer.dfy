/** Credentials after "bearer " (RFC 6750, section 2.1) in running text. */
module Bearer {
  import opened Basics
  import opened Scanning
  import opened Texts
  import Jwt

  const BEARER := "bearer "
  const GOOGLE := "ya29."
  const MIN_OPAQUE := 20

  predicate IsWordChar(c: char) {
    IsDigit(c) || 'A' <= c <= 'Z' || 'a' <= c <= 'z'
  }

  predicate NotBlank(c: char) {
    c != ' ' && c != '\t' && c != '\n' && c != '\r'
  }

  predicate IsOpaqueChar(c: char) {
    IsWordChar(c) || c == '.' || c == '_' || c == '~' || c == '+' || c == '/' || c == '-'
  }

  predicate IsGoogleToken(v: string) {
    GOOGLE <= v && |v| > |GOOGLE| && forall i :: |GOOGLE| <= i < |v| ==> Jwt.IsJwtChar(v[i])
  }

  predicate IsOpaqueToken(v: string) {
    var n := Span(v, IsOpaqueChar);
    |v| >= MIN_OPAQUE && n >= 1 && forall i :: n <= i < |v| ==> v[i] == '='
  }

  predicate LooksLikeCredential(v: string) {
    Jwt.IsWholeToken(v) || IsGoogleToken(v) || IsOpaqueToken(v)
  }

  predicate Letter(c: char, small: char) {
    LowerChar(c) == small
  }

  /** "bearer " stands at `k`, in any mixture of cases. */
  predicate BearerAt(t: string, k: nat) {
    && k + 7 <= |t|
    && Letter(t[k], 'b') && Letter(t[k + 1], 'e') && Letter(t[k + 2], 'a') && Letter(t[k + 3], 'r')
    && Letter(t[k + 4], 'e') && Letter(t[k + 5], 'r') && t[k + 6] == ' '
  }

  /** A word may start at `k`. */
  predicate Boundary(t: string, k: nat)
    requires k <= |t|
  {
    k == 0 || !IsWordChar(t[k - 1])
  }

  /** Where the characters that are not blank end. */
  function WordEnd(t: string, from: nat): (end: nat)
    requires from <= |t|
    ensures from <= end <= |t|
    ensures forall k :: from <= k < end ==> NotBlank(t[k])
    ensures end < |t| ==> !NotBlank(t[end])
    decreases |t| - from
  {
    if from < |t| && NotBlank(t[from]) then WordEnd(t, from + 1) else from
  }

  lemma {:induction false} WordEndIs(t: string, from: nat, end: nat)
    requires from <= end <= |t| && (forall k :: from <= k < end ==> NotBlank(t[k])) && (end < |t| ==> !NotBlank(t[end]))
    ensures WordEnd(t, from) == end
    decreases end - from
  {
    if from < end {
      WordEndIs(t, from + 1, end);
    }
  }

  function TokenAt(t: string, from: nat): string
    requires from <= |t|
  {
    t[from..WordEnd(t, from)]
  }

  /** What must not be shown: "bearer " as a word, and after it what `test` takes for a credential. */
  predicate CredentialAt(t: string, k: nat, test: string -> bool) {
    BearerAt(t, k) && Boundary(t, k) && test(TokenAt(t, k + 7))
  }

  lemma AtIsBearerAt(t: string, k: nat)
    ensures At(Lowered(t), k, BEARER) == BearerAt(t, k)
  {
    if k + 7 <= |t| {
      var u := Lowered(t)[k..k + 7];
      assert u == [u[0], u[1], u[2], u[3], u[4], u[5], u[6]];
    }
  }

  /** The first "bearer " at or after `from`. */
  function FirstBearer(t: string, from: nat): (found: Option<nat>)
    ensures found.Some? ==> from <= found.value && BearerAt(t, found.value)
    ensures found.Some? ==> forall j :: from <= j < found.value ==> !BearerAt(t, j)
    ensures found.None? ==> forall j :: from <= j ==> !BearerAt(t, j)
    decreases |t| - from
  {
    if from + 7 > |t| then None
    else if BearerAt(t, from) then Some(from)
    else FirstBearer(t, from + 1)
  }

  lemma {:induction false} FirstIsIndexOf(t: string, from: nat)
    ensures IndexOf(Lowered(t), BEARER, from) == FirstBearer(t, from)
    decreases |t| - from
  {
    AtIsBearerAt(t, from);
    if from + 7 <= |t| && !BearerAt(t, from) {
      FirstIsIndexOf(t, from + 1);
    }
  }

  function NextBearer(t: string, test: string -> bool): (step: Step)
    requires !test("")
    ensures Fits(t, step)
  {
    match FirstBearer(t, 0)
    case None => Stop
    case Some(k) =>
      var e := WordEnd(t, k + 7);
      assert e == k + 7 ==> TokenAt(t, k + 7) == "";
      if CredentialAt(t, k, test) then Cut(k + 7, e - (k + 7)) else Keep(k, 1)
  }

  /**
   `next` is the step of redactBearer for some test of what is a credential,
   and `scan` the whole of it.
   */
  ghost predicate Does(scan: string -> string, next: string -> Step, test: string -> bool) {
    && !test("")
    && Advances(next)
    && (forall t {:trigger NextBearer(t, test)} :: next(t) == NextBearer(t, test))
    && (forall t {:trigger Scan(t, next)} :: scan(t) == Scan(t, next))
  }

  // The scan of a rest of the text.

  lemma BearerShift(text: string, i: nat, j: nat)
    requires i <= |text|
    ensures BearerAt(text[i..], j) == BearerAt(text, i + j)
  {
  }

  lemma FirstIs(t: string, from: nat, k: nat)
    requires from <= k && BearerAt(t, k) && forall j :: from <= j < k ==> !BearerAt(t, j)
    ensures FirstBearer(t, from) == Some(k)
  {
  }

  lemma FirstShift(text: string, i: nat)
    requires i <= |text|
    ensures FirstBearer(text, i).None? ==> FirstBearer(text[i..], 0) == None
    ensures FirstBearer(text, i).Some? ==> FirstBearer(text[i..], 0) == Some(FirstBearer(text, i).value - i)
  {
    match FirstBearer(text, i)
    case Some(k) =>
      BearerShift(text, i, k - i);
      forall j | 0 <= j < k - i
        ensures !BearerAt(text[i..], j)
      {
        BearerShift(text, i, j);
      }
      FirstIs(text[i..], 0, k - i);
    case None =>
      if FirstBearer(text[i..], 0).Some? {
        BearerShift(text, i, FirstBearer(text[i..], 0).value);
        assert false;
      }
  }

  lemma TokenShift(text: string, i: nat, from: nat)
    requires i <= from <= |text|
    ensures WordEnd(text[i..], from - i) == WordEnd(text, from) - i
    ensures TokenAt(text[i..], from - i) == TokenAt(text, from)
  {
    var e := WordEnd(text, from);
    WordEndIs(text[i..], from - i, e - i);
    assert text[i..][from - i..e - i] == text[from..e];
  }

  lemma CredentialShift(text: string, i: nat, k: nat, test: string -> bool)
    requires i <= k && BearerAt(text, k) && (i == 0 || i < k)
    ensures CredentialAt(text[i..], k - i, test) == CredentialAt(text, k, test)
  {
    BearerShift(text, i, k - i);
    TokenShift(text, i, k + 7);
    assert Boundary(text[i..], k - i) == Boundary(text, k);
  }

  /** "bearer " does not overlap itself. */
  lemma NoOverlap(t: string, a: nat, b: nat)
    requires a < b && BearerAt(t, a) && BearerAt(t, b)
    ensures a + 7 <= b
  {
  }

  lemma NotNext(t: string, k: nat)
    requires BearerAt(t, k)
    ensures !BearerAt(t, k + 1)
  {
  }

  lemma StepAt(t: string, k: nat, test: string -> bool, credential: bool, e: nat)
    requires !test("")
    requires FirstBearer(t, 0) == Some(k) && credential == CredentialAt(t, k, test) && e == WordEnd(t, k + 7)
    ensures NextBearer(t, test) == if credential then Cut(k + 7, e - (k + 7)) else Keep(k, 1)
  {
  }

  /** All that the next step reads, seen from the rest `u` of the text. */
  lemma ShiftAll(text: string, i: nat, k: nat, u: string, m: nat, test: string -> bool)
    requires i <= k && FirstBearer(text, i) == Some(k) && (i == 0 || !BearerAt(text, i)) && u == text[i..] && m == k - i
    ensures FirstBearer(u, 0) == Some(m) && CredentialAt(u, m, test) == CredentialAt(text, k, test)
    ensures WordEnd(u, m + 7) == WordEnd(text, k + 7) - i
  {
    FirstShift(text, i);
    CredentialShift(text, i, k, test);
    TokenShift(text, i, k + 7);
  }

  /** The step at `k`, where the word after "bearer " reaches from `b` to `e`. */
  lemma StepFrom(text: string, i: nat, k: nat, b: nat, e: nat, test: string -> bool)
    requires !test("") && i <= k && FirstBearer(text, i) == Some(k) && (i == 0 || !BearerAt(text, i))
    requires b == k + 7 && e == WordEnd(text, b)
    ensures NextBearer(text[i..], test) == if CredentialAt(text, k, test) then Cut(b - i, e - b) else Keep(k - i, 1)
  {
    var u, m: nat := text[i..], k - i;
    ShiftAll(text, i, k, u, m, test);
    StepAt(u, m, test, CredentialAt(text, k, test), e - i);
  }

  lemma CutShown(out: string, text: string, i: nat, k: nat, e: nat, scan: string -> string, next: string -> Step,
                 test: string -> bool)
    requires Does(scan, next, test) && i <= k <= e <= |text| && NextBearer(text[i..], test) == Cut(k - i, e - k)
    ensures out + scan(text[i..]) == (out + text[i..k] + STARS) + scan(text[e..])
  {
    assert next(text[i..]) == Cut(k - i, e - k) && Fits(text[i..], next(text[i..]));
    CutFrom(out, text, i, k, e, next);
  }

  lemma CutHere(out: string, text: string, i: nat, k: nat, e: nat, scan: string -> string, next: string -> Step,
                test: string -> bool)
    requires Does(scan, next, test) && CredentialAt(text, k, test)
    requires i <= k && FirstBearer(text, i) == Some(k) && (i == 0 || !BearerAt(text, i)) && e == WordEnd(text, k + 7)
    ensures out + scan(text[i..]) == (out + text[i..k + 7] + STARS) + scan(text[e..])
  {
    var b := k + 7;
    StepFrom(text, i, k, b, e, test);
    CutShown(out, text, i, b, e, scan, next, test);
  }

  lemma KeepHere(out: string, text: string, i: nat, k: nat, e: nat, scan: string -> string, next: string -> Step,
                 test: string -> bool)
    requires Does(scan, next, test) && !CredentialAt(text, k, test)
    requires i <= k && FirstBearer(text, i) == Some(k) && (i == 0 || !BearerAt(text, i)) && e == WordEnd(text, k + 7)
    ensures !BearerAt(text, k + 1) && out + scan(text[i..]) == (out + text[i..k + 1]) + scan(text[k + 1..])
  {
    NotNext(text, k);
    StepFrom(text, i, k, k + 7, e, test);
    KeepFrom(out, text, i, k, k + 1, next);
  }

  lemma NoneFrom(text: string, i: nat, scan: string -> string, next: string -> Step, test: string -> bool)
    requires Does(scan, next, test) && i <= |text| && FirstBearer(text, i) == None
    ensures scan(text[i..]) == text[i..]
  {
    FirstShift(text, i);
    assert NextBearer(text[i..], test) == Stop && Scan(text[i..], next) == text[i..];
  }

  /** lower.indexOf("bearer ", from). */
  method Search(text: string, lower: string, from: nat) returns (found: Option<nat>)
    requires |lower| == |text| && lower == Lowered(text)
    ensures found == FirstBearer(text, from)
  {
    FirstIsIndexOf(text, from);
    found := IndexOf(lower, BEARER, from);
  }

  method TokenEnd(text: string, start: nat) returns (end: nat)
    requires start <= |text|
    ensures end == WordEnd(text, start) && text[start..end] == TokenAt(text, start) && !BearerAt(text, end)
  {
    end := start;
    while end < |text| && NotBlank(text[end])
      invariant start <= end <= |text|
      invariant forall k :: start <= k < end ==> NotBlank(text[k])
    {
      end := end + 1;
    }
    WordEndIs(text, start, end);
  }

  lemma Decided(text: string, k: nat, boundary: bool, token: string, test: string -> bool)
    requires BearerAt(text, k) && boundary == Boundary(text, k) && token == TokenAt(text, k + 7)
    ensures CredentialAt(text, k, test) == (boundary && test(token))
  {
  }

  /** The next "bearer ", where the token after it ends, and whether the token is to be replaced. */
  method Look(text: string, lower: string, from: nat, test: string -> bool)
    returns (found: Option<nat>, end: nat, hit: bool)
    requires |lower| == |text| && lower == Lowered(text)
    ensures found == FirstBearer(text, from)
    ensures found.Some? ==> end == WordEnd(text, found.value + 7) && !BearerAt(text, end)
    ensures found.Some? ==> hit == CredentialAt(text, found.value, test)
  {
    found := Search(text, lower, from);
    end, hit := 0, false;
    if found.Some? {
      var idx := found.value;
      var boundary := idx == 0 || !IsWordChar(text[idx - 1]);
      var start := idx + 7;
      end := TokenEnd(text, start);
      var token := text[start..end];
      Decided(text, idx, boundary, token, test);
      hit := boundary && test(token);
    }
  }

  /** One round of the loop: what is put out for the "bearer " at `idx`, and where the scan goes on. */
  method Advance(out: string, text: string, i: nat, idx: nat, end: nat, hit: bool, test: string -> bool,
                 ghost next: string -> Step, ghost scan: string -> string)
    returns (more: string, j: nat)
    requires Does(scan, next, test) && i <= idx && FirstBearer(text, i) == Some(idx) && (i == 0 || !BearerAt(text, i))
    requires end == WordEnd(text, idx + 7) && !BearerAt(text, end) && hit == CredentialAt(text, idx, test)
    ensures i < j <= |text| && !BearerAt(text, j)
    ensures more + scan(text[j..]) == out + scan(text[i..])
  {
    if hit {
      CutHere(out, text, i, idx, end, scan, next, test);
      more, j := out + text[i..idx + 7] + STARS, end;
    } else {
      KeepHere(out, text, i, idx, end, scan, next, test);
      more, j := out + text[i..idx + 1], idx + 1;
    }
  }

  method RedactAfterBearer(text: string, test: string -> bool, ghost next: string -> Step,
                           ghost scan: string -> string) returns (out: string)
    requires Does(scan, next, test)
    ensures out == scan(text)
  {
    var lower := Lowered(text);
    out := "";
    var i := 0;
    assert text[0..] == text;
    while i < |text|
      invariant i <= |text| && (i == 0 || !BearerAt(text, i))
      invariant out + scan(text[i..]) == scan(text)
      decreases |text| - i
    {
      var found, end, hit := Look(text, lower, i, test);
      if found.None? {
        NoneFrom(text, i, scan, next, test);
        return out + text[i..];
      }
      out, i := Advance(out, text, i, found.value, end, hit, test, next, scan);
    }
    NoneFrom(text, i, scan, next, test);
    assert text[i..] == "";
  }

  /** The step of redactBearer. */
  function Next(t: string): Step {
    NextBearer(t, LooksLikeCredential)
  }

  /** redactBearer. */
  function Redact(t: string): string {
    Scan(t, Next)
  }

  method RedactBearer(text: string) returns (out: string)
    ensures out == Redact(text)
  {
    out := RedactAfterBearer(text, LooksLikeCredential, Next, Redact);
  }
}
