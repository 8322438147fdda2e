/** What each token of the scanner is, written out character by character. */
module JsonTokenLaws {
  import opened Texts
  import opened JsonTokens

  predicate InNumber(c: char) {
    '0' <= c <= '9' || c in ['.', 'e', 'E', '+', '-']
  }

  predicate InPunctuation(c: char) {
    c in ['{', '}', '[', ']', ',', ':']
  }

  /** Neither white space nor the beginning of any other token, letters apart. */
  predicate InText(c: char) {
    c != '"' && !InPunctuation(c) && !('0' <= c <= '9') && c != '-' && !IsSpace(c)
  }

  /** White space, by code points: controls, spaces and separators. */
  lemma SpaceExactly(c: char)
    ensures IsSpace(c) <==>
      c as int in {9, 10, 11, 12, 13, 32, 160, 5760, 8192, 8193, 8194, 8195, 8196, 8197, 8198, 8199, 8200, 8201, 8202,
                   8232, 8233, 8239, 8287, 12288, 65279}
  {
  }

  /** The first `n` characters satisfy `p`, and no more do. */
  predicate IsRun(t: string, n: nat, p: char -> bool) {
    n <= |t| && (forall i :: 0 <= i < n ==> p(t[i])) && (n < |t| ==> !p(t[n]))
  }

  /** A backslash that is not itself escaped stands before place `i`; the opening quote is at 0. */
  predicate IsEscaped(t: string, i: nat)
    requires i <= |t|
  {
    i > 1 && t[i - 1] == '\\' && !IsEscaped(t, i - 1)
  }

  predicate IsCloser(t: string, i: nat) {
    0 < i < |t| && t[i] == '"' && !IsEscaped(t, i)
  }

  /** The literal reaches to the first quote that no backslash escapes, or to the end of the text. */
  predicate LiteralEndsAt(t: string, n: nat) {
    && 0 < n <= |t|
    && (forall i :: 0 < i < n - 1 ==> !IsCloser(t, i))
    && (IsCloser(t, n - 1) || (n == |t| && !IsCloser(t, n - 1)))
  }

  predicate ColonFollows(t: string, n: nat) {
    exists m :: n <= m < |t| && t[m] == ':' && forall i :: n <= i < m ==> IsSpace(t[i])
  }

  /** The word stands there, and behind it the text ends or goes on with white space, a comma or a closing bracket. */
  predicate IsWord(t: string, word: string) {
    word <= t && (|t| == |word| || IsSpace(t[|word|]) || t[|word|] in [',', '}', ']'])
  }

  predicate StartsNumber(t: string)
    requires t != ""
  {
    '0' <= t[0] <= '9' || (t[0] == '-' && |t| > 1 && InNumber(t[1]))
  }

  ghost predicate TokenLaw(t: string, token: Token)
    requires t != ""
  {
    var n := |token.text|;
    && token.text <= t && n > 0
    && if t[0] == '"' then
         LiteralEndsAt(t, n) && token.kind == if ColonFollows(t, n) then Key else String
       else if IsSpace(t[0]) then token.kind == Text && IsRun(t, n, IsSpace)
       else if StartsNumber(t) then token.kind == Number && IsRun(t, n, InNumber)
       else if IsWord(t, "true") || IsWord(t, "false") then
         token.kind == Boolean && (token.text == "true" || token.text == "false")
       else if IsWord(t, "null") then token == Token(NullWord, "null")
       else if InPunctuation(t[0]) then token == Token(Punct, [t[0]])
       else token.kind == Text && if t[0] == '-' then n == 1 else IsRun(t, n, InText)
  }

  lemma {:induction false} CloseExactly(t: string, p: nat, n: nat)
    requires 0 < p <= |t| && !IsEscaped(t, p) && n == p + Close(t[p..])
    ensures n <= |t| && forall i :: p <= i < n - 1 ==> !IsCloser(t, i)
    ensures (p < n && IsCloser(t, n - 1)) || (n == |t| && (n > p ==> !IsCloser(t, n - 1)))
    decreases |t| - p
  {
    if p < |t| {
      if t[p] == '\\' {
        assert IsEscaped(t, p + 1);
        if p + 1 < |t| {
          assert t[p..][2..] == t[p + 2..];
          CloseExactly(t, p + 2, n);
        }
      } else if t[p] != '"' {
        assert t[p..][1..] == t[p + 1..];
        CloseExactly(t, p + 1, n);
      }
    }
  }

  lemma LiteralExactly(t: string)
    requires t != "" && t[0] == '"'
    ensures LiteralEndsAt(t, |Literal(t).text|)
    ensures Literal(t).kind == if ColonFollows(t, |Literal(t).text|) then Key else String
  {
    var n := 1 + Close(t[1..]);
    CloseExactly(t, 1, n);
    assert |Literal(t).text| == n;
    ColonExactly(t, n);
  }

  lemma ColonExactly(t: string, n: nat)
    requires n <= |t|
    ensures ColonFollows(t, n) <==> (var after := Span(t[n..], IsSpace); after < |t[n..]| && t[n..][after] == ':')
  {
    var after := Span(t[n..], IsSpace);
    assert forall i :: 0 <= i < |t[n..]| ==> t[n..][i] == t[n + i];
    assert forall i :: n <= i < n + after ==> t[i] == t[n..][i - n];
    if m :| n <= m < |t| && t[m] == ':' && forall i :: n <= i < m ==> IsSpace(t[i]) {
      SpanUnique(t[n..], IsSpace, m - n);
    }
  }

  lemma RunExactly(t: string, p: char -> bool, q: char -> bool, kind: Kind)
    requires t != "" && forall c :: p(c) == q(c)
    ensures var token := Run(t, p, kind);
      if p(t[0]) then token.kind == kind && IsRun(t, |token.text|, q) else token == Token(Text, t[..1])
  {
  }

  lemma WordExactly(t: string)
    requires t != ""
    ensures Word(t) == (if IsWord(t, "true") then "true"
                        else if IsWord(t, "false") then "false"
                        else if IsWord(t, "null") then "null"
                        else "")
  {
    assert forall i: nat :: i <= |t| ==> (IsWordEnd(t, i) <==> i == |t| || IsSpace(t[i]) || t[i] in [',', '}', ']']);
  }

  lemma SpaceFirst(t: string)
    requires t != "" && t[0] != '"' && IsSpace(t[0])
    ensures TokenLaw(t, First(t))
  {
    RunExactly(t, IsSpace, IsSpace, Text);
  }

  lemma NumberFirst(t: string)
    requires t != "" && t[0] != '"' && !IsSpace(t[0]) && StartsNumber(t)
    ensures TokenLaw(t, First(t))
  {
    RunExactly(t, IsNumberChar, InNumber, Number);
  }

  lemma WordFirst(t: string)
    requires t != "" && t[0] != '"' && !IsSpace(t[0]) && !StartsNumber(t) && Word(t) != ""
    ensures TokenLaw(t, First(t))
  {
    WordExactly(t);
    assert First(t) == Token(if Word(t) == "null" then NullWord else Boolean, Word(t));
  }

  lemma OtherFirst(t: string)
    requires t != "" && t[0] != '"' && !IsSpace(t[0]) && !StartsNumber(t) && Word(t) == ""
    ensures TokenLaw(t, First(t))
  {
    WordExactly(t);
    RunExactly(t, IsPlainText, InText, Text);
  }

  /** The scanner's token at the front of any text obeys the law. */
  lemma FirstExactly(t: string)
    requires t != ""
    ensures TokenLaw(t, First(t))
  {
    if t[0] == '"' {
      LiteralExactly(t);
    } else if IsSpace(t[0]) {
      SpaceFirst(t);
    } else if StartsNumber(t) {
      NumberFirst(t);
    } else if Word(t) != "" {
      WordFirst(t);
    } else {
      OtherFirst(t);
    }
  }

  /** Every token stands where the one before ended, and obeys the law of what is left of the text there. */
  ghost predicate TokensLaw(t: string, tokens: seq<Token>)
    decreases |tokens|
  {
    if tokens == [] then t == ""
    else t != "" && TokenLaw(t, tokens[0]) && TokensLaw(t[|tokens[0].text|..], tokens[1..])
  }

  lemma {:induction false} LexExactly(t: string)
    ensures TokensLaw(t, Lex(t))
    decreases |t|
  {
    if t != "" {
      FirstExactly(t);
      var rest := t[|First(t).text|..];
      LexExactly(rest);
      assert Lex(t)[1..] == Lex(rest);
    }
  }
}
