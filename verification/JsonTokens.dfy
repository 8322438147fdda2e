/** The JSON token scanner: a text is cut into tokens by looking forward only. */
module JsonTokens {
  import opened Texts

  datatype Kind = Key | String | Number | Boolean | NullWord | Punct | Text

  datatype Token = Token(kind: Kind, text: string)

  predicate IsNumberChar(c: char) {
    IsDigit(c) || c == '.' || c == 'e' || c == 'E' || c == '+' || c == '-'
  }

  predicate IsPunct(c: char) {
    c == '{' || c == '}' || c == '[' || c == ']' || c == ',' || c == ':'
  }

  predicate IsPlainText(c: char) {
    c != '"' && !IsPunct(c) && !IsDigit(c) && c != '-' && !IsSpace(c)
  }

  /**
   How much of `t`, the text after an opening quote, belongs to the literal: up to its closing
   quote, or all of it.
   */
  function Close(t: string): (n: nat)
    ensures n <= |t| && (t != "" ==> n > 0)
  {
    if t == "" then 0
    else if t[0] == '\\' then (if |t| == 1 then 1 else 2 + Close(t[2..]))
    else if t[0] == '"' then 1
    else 1 + Close(t[1..])
  }

  predicate IsDigitStart(t: string) {
    t != "" && (IsDigit(t[0]) || (t[0] == '-' && |t| > 1 && IsNumberChar(t[1])))
  }

  predicate IsWordEnd(t: string, i: nat) {
    i >= |t| || IsSpace(t[i]) || t[i] == ',' || t[i] == '}' || t[i] == ']'
  }

  function Word(t: string): string {
    if "true" <= t && IsWordEnd(t, 4) then "true"
    else if "false" <= t && IsWordEnd(t, 5) then "false"
    else if "null" <= t && IsWordEnd(t, 4) then "null"
    else ""
  }

  /** A run of one character class, or a single character of text where the run is empty. */
  function Run(t: string, p: char -> bool, kind: Kind): (token: Token)
    requires t != ""
    ensures token.text != "" && token.text <= t
  {
    var n := Span(t, p);
    if n == 0 then Token(Text, t[..1]) else Token(kind, t[..n])
  }

  function Literal(t: string): (token: Token)
    requires t != "" && t[0] == '"'
    ensures token.text != "" && token.text <= t
  {
    var end := 1 + Close(t[1..]);
    var rest := t[end..];
    var after := Span(rest, IsSpace);
    Token(if after < |rest| && rest[after] == ':' then Key else String, t[..end])
  }

  /** The first token of `t`. */
  function First(t: string): (token: Token)
    requires t != ""
    ensures token.text != "" && token.text <= t
  {
    if t[0] == '"' then Literal(t)
    else if IsSpace(t[0]) then Run(t, IsSpace, Text)
    else if IsDigitStart(t) then Run(t, IsNumberChar, Number)
    else if Word(t) != "" then Token(if Word(t) == "null" then NullWord else Boolean, Word(t))
    else if IsPunct(t[0]) then Token(Punct, t[..1])
    else Run(t, IsPlainText, Text)
  }

  function Lex(t: string): seq<Token>
    decreases |t|
  {
    if t == "" then [] else [First(t)] + Lex(t[|First(t).text|..])
  }

  // The loops.

  method ReadWhile(pretty: string, start: nat, p: char -> bool, kind: Kind) returns (token: Token, end: nat)
    requires start < |pretty|
    ensures token == Run(pretty[start..], p, kind) && end == start + |token.text|
  {
    end := start;
    while end < |pretty| && p(pretty[end])
      invariant start <= end <= |pretty|
      invariant forall i :: start <= i < end ==> p(pretty[i])
    {
      end := end + 1;
    }
    SpanUnique(pretty[start..], p, end - start);
    if end == start {
      return Token(Text, [pretty[start]]), start + 1;
    }
    assert pretty[start..][..end - start] == pretty[start..end];
    return Token(kind, pretty[start..end]), end;
  }

  method StringEnd(pretty: string, start: nat) returns (end: nat)
    requires start < |pretty|
    ensures end == start + 1 + Close(pretty[start + 1..])
  {
    var index := start + 1;
    while index < |pretty|
      invariant start < index <= |pretty| + 1
      invariant start + 1 + Close(pretty[start + 1..]) ==
                if index > |pretty| then |pretty| else index + Close(pretty[index..])
    {
      if pretty[index] == '\\' {
        assert index + 2 <= |pretty| ==> pretty[index..][2..] == pretty[index + 2..];
        index := index + 2;
      } else if pretty[index] == '"' {
        return index + 1;
      } else {
        assert pretty[index..][1..] == pretty[index + 1..];
        index := index + 1;
      }
    }
    return |pretty|;
  }

  method SkipSpace(pretty: string, start: nat) returns (index: nat)
    requires start <= |pretty|
    ensures index == start + Span(pretty[start..], IsSpace)
  {
    index := start;
    while index < |pretty| && IsSpace(pretty[index])
      invariant start <= index <= |pretty|
      invariant forall i :: start <= i < index ==> IsSpace(pretty[i])
    {
      index := index + 1;
    }
    SpanUnique(pretty[start..], IsSpace, index - start);
  }

  method ReadString(pretty: string, start: nat) returns (token: Token, end: nat)
    requires start < |pretty| && pretty[start] == '"'
    ensures token == Literal(pretty[start..]) && end == start + |token.text|
  {
    end := StringEnd(pretty, start);
    assert pretty[start..][1..] == pretty[start + 1..];
    var after := SkipSpace(pretty, end);
    assert pretty[start..][end - start..] == pretty[end..];
    assert pretty[start..][..end - start] == pretty[start..end];
    token := Token(if after < |pretty| && pretty[after] == ':' then Key else String, pretty[start..end]);
  }

  method NextToken(pretty: string, start: nat) returns (token: Token, end: nat)
    requires start < |pretty|
    ensures token == First(pretty[start..]) && end == start + |token.text|
  {
    var t := pretty[start..];
    if t[0] == '"' {
      token, end := ReadString(pretty, start);
    } else if IsSpace(t[0]) {
      token, end := ReadWhile(pretty, start, IsSpace, Text);
    } else if IsDigitStart(t) {
      token, end := ReadWhile(pretty, start, IsNumberChar, Number);
    } else if Word(t) != "" {
      token := Token(if Word(t) == "null" then NullWord else Boolean, Word(t));
      end := start + |token.text|;
    } else if IsPunct(t[0]) {
      token, end := Token(Punct, [t[0]]), start + 1;
    } else {
      token, end := ReadWhile(pretty, start, IsPlainText, Text);
    }
  }

  method TokenizeJson(pretty: string) returns (tokens: seq<Token>)
    ensures tokens == Lex(pretty)
    ensures Joined(tokens) == pretty
  {
    tokens := [];
    var index := 0;
    while index < |pretty|
      invariant index <= |pretty|
      invariant tokens + Lex(pretty[index..]) == Lex(pretty)
      decreases |pretty| - index
    {
      var token, end := NextToken(pretty, index);
      assert pretty[index..][|token.text|..] == pretty[end..];
      assert tokens + ([token] + Lex(pretty[end..])) == (tokens + [token]) + Lex(pretty[end..]);
      tokens, index := tokens + [token], end;
    }
    LosesNothing(pretty);
  }

  function Joined(tokens: seq<Token>): string {
    if tokens == [] then "" else tokens[0].text + Joined(tokens[1..])
  }

  /** Every character of every text is in exactly one token, in order, and no token is empty. */
  lemma {:induction false} LosesNothing(t: string)
    ensures Joined(Lex(t)) == t
    ensures forall token :: token in Lex(t) ==> token.text != ""
    decreases |t|
  {
    if t != "" {
      var n := |First(t).text|;
      LosesNothing(t[n..]);
      assert t == t[..n] + t[n..];
      assert First(t).text == t[..n];
      assert Lex(t)[1..] == Lex(t[n..]);
    }
  }
}
