/** JSON.stringify with an indent of two, and its agreement with the token scanner. */
module JsonPrinter {
  import opened Basics
  import opened Texts
  import opened JsonTokens

  /** A JSON value. Objects list their members in the order in which they are enumerated. */
  datatype Json =
    | Null
    | Bool(b: bool)
    | Num(digits: string)
    | Str(s: string)
    | Arr(items: seq<Json>)
    | Obj(members: seq<Member>)

  datatype Member = Member(name: string, value: Json)

  /** Numbers print with a digit, or a minus and a number character, first and number characters only. */
  predicate IsNumberText(t: string) {
    IsDigitStart(t) && forall i :: 0 <= i < |t| ==> IsNumberChar(t[i])
  }

  predicate WellFormed(v: Json)
    decreases v
  {
    match v
    case Num(digits) => IsNumberText(digits)
    case Arr(items) => forall i :: 0 <= i < |items| ==> WellFormed(items[i])
    case Obj(members) => forall i :: 0 <= i < |members| ==> WellFormed(members[i].value)
    case _ => true
  }

  const HEX := "0123456789abcdef"

  function Escape(c: char): string {
    var n := c as int;
    if c == '"' then "\\\""
    else if c == '\\' then "\\\\"
    else if n == 8 then "\\b"
    else if n == 9 then "\\t"
    else if n == 10 then "\\n"
    else if n == 12 then "\\f"
    else if n == 13 then "\\r"
    else if n < 32 then "\\u00" + [HEX[n / 16], HEX[n % 16]]
    else [c]
  }

  function Escaped(s: string): string {
    if s == "" then "" else Escape(s[0]) + Escaped(s[1..])
  }

  function Quote(s: string): string {
    "\"" + Escaped(s) + "\""
  }

  function Pad(n: nat): string {
    if n == 0 then "" else " " + Pad(n - 1)
  }

  function Print(v: Json, indent: nat): string
    decreases v, 0
  {
    match v
    case Null => "null"
    case Bool(b) => if b then "true" else "false"
    case Num(digits) => digits
    case Str(s) => Quote(s)
    case Arr(items) =>
      if items == [] then "[]" else "[" + PrintItems(items, indent + 2) + ("\n" + Pad(indent) + "]")
    case Obj(members) =>
      if members == [] then "{}" else "{" + PrintMembers(members, indent + 2) + ("\n" + Pad(indent) + "}")
  }

  function PrintItems(items: seq<Json>, indent: nat): string
    decreases items, 1
  {
    if items == [] then ""
    else
      var one := "\n" + Pad(indent) + Print(items[0], indent);
      if |items| == 1 then one else one + ("," + PrintItems(items[1..], indent))
  }

  function PrintMembers(members: seq<Member>, indent: nat): string
    decreases members, 1
  {
    if members == [] then ""
    else
      var one := "\n" + Pad(indent) + Quote(members[0].name) + ": " + Print(members[0].value, indent);
      if |members| == 1 then one else one + ("," + PrintMembers(members[1..], indent))
  }

  // What the tokens of a value are.

  function Tokens(v: Json): seq<Token>
    decreases v, 0
  {
    match v
    case Null => [Token(NullWord, "null")]
    case Bool(b) => [Token(Boolean, if b then "true" else "false")]
    case Num(digits) => [Token(Number, digits)]
    case Str(s) => [Token(String, Quote(s))]
    case Arr(items) => [Token(Punct, "[")] + ItemTokens(items) + [Token(Punct, "]")]
    case Obj(members) => [Token(Punct, "{")] + MemberTokens(members) + [Token(Punct, "}")]
  }

  function ItemTokens(items: seq<Json>): seq<Token>
    decreases items, 1
  {
    if items == [] then []
    else Tokens(items[0]) + (if |items| == 1 then [] else [Token(Punct, ",")] + ItemTokens(items[1..]))
  }

  function MemberTokens(members: seq<Member>): seq<Token>
    decreases members, 1
  {
    if members == [] then []
    else
      [Token(Key, Quote(members[0].name)), Token(Punct, ":")] + Tokens(members[0].value)
      + (if |members| == 1 then [] else [Token(Punct, ",")] + MemberTokens(members[1..]))
  }

  predicate IsBlank(token: Token) {
    token.kind == Text && token.text != "" && IsSpace(token.text[0])
  }

  function Solid(tokens: seq<Token>): seq<Token> {
    if tokens == [] then []
    else (if IsBlank(tokens[0]) then [] else [tokens[0]]) + Solid(tokens[1..])
  }

  /** The tokens of a text without the white space between them. */
  function Scan(t: string): seq<Token> {
    Solid(Lex(t))
  }

  lemma ScanFirst(t: string)
    requires t != ""
    ensures Scan(t) == (if IsBlank(First(t)) then [] else [First(t)]) + Scan(t[|First(t).text|..])
  {
    assert Lex(t)[1..] == Lex(t[|First(t).text|..]);
  }

  lemma ScanSkipsSpace(t: string)
    ensures Scan(t) == Scan(t[Span(t, IsSpace)..])
  {
    if Span(t, IsSpace) > 0 {
      ScanFirst(t);
    } else {
      assert t[0..] == t;
    }
  }

  lemma SpanOfConcat(blank: string, rest: string)
    requires forall i :: 0 <= i < |blank| ==> IsSpace(blank[i])
    ensures Span(blank + rest, IsSpace) == |blank| + Span(rest, IsSpace)
  {
    var n := |blank| + Span(rest, IsSpace);
    forall i | 0 <= i < n
      ensures IsSpace((blank + rest)[i])
    {
      if i >= |blank| {
        assert (blank + rest)[i] == rest[i - |blank|];
      }
    }
    if n < |blank + rest| {
      assert (blank + rest)[n] == rest[n - |blank|];
    }
    SpanUnique(blank + rest, IsSpace, n);
  }

  lemma ScanBlank(blank: string, rest: string)
    requires forall i :: 0 <= i < |blank| ==> IsSpace(blank[i])
    ensures Scan(blank + rest) == Scan(rest)
  {
    var t := blank + rest;
    SpanOfConcat(blank, rest);
    DropPast(blank, rest, Span(rest, IsSpace));
    assert t[Span(t, IsSpace)..] == rest[Span(rest, IsSpace)..];
    ScanSkipsSpace(t);
    ScanSkipsSpace(rest);
  }

  lemma DropPast(a: string, b: string, n: nat)
    requires n <= |b|
    ensures (a + b)[|a| + n..] == b[n..] && (a + b)[..|a|] == a
  {
  }

  lemma WordStart(t: string)
    requires t != "" && t[0] != 't' && t[0] != 'f' && t[0] != 'n'
    ensures Word(t) == ""
  {
    assert "true"[0] == 't' && "false"[0] == 'f' && "null"[0] == 'n';
  }

  lemma ScanPunct(c: char, rest: string)
    requires IsPunct(c)
    ensures Scan([c] + rest) == [Token(Punct, [c])] + Scan(rest)
  {
    var t := [c] + rest;
    DropPast([c], rest, 0);
    WordStart(t);
    assert First(t) == Token(Punct, [c]);
    ScanFirst(t);
  }

  lemma ScanNumber(digits: string, rest: string)
    requires IsNumberText(digits) && (rest != "" ==> !IsNumberChar(rest[0]))
    ensures Scan(digits + rest) == [Token(Number, digits)] + Scan(rest)
  {
    var t := digits + rest;
    SpanUnique(t, IsNumberChar, |digits|);
    assert IsDigitStart(t);
    assert t[..|digits|] == digits && t[|digits|..] == rest;
    assert First(t) == Token(Number, digits);
    ScanFirst(t);
  }

  lemma ScanWord(word: string, rest: string)
    requires word == "true" || word == "false" || word == "null"
    requires IsWordEnd(rest, 0)
    ensures Scan(word + rest) == [Token(if word == "null" then NullWord else Boolean, word)] + Scan(rest)
  {
    var t := word + rest;
    assert word <= t && IsWordEnd(t, |word|);
    assert Word(t) == word;
    assert t[|word|..] == rest;
    assert First(t).text == word;
    ScanFirst(t);
  }

  lemma CloseStepsOverPlain(plain: string, rest: string)
    requires forall i :: 0 <= i < |plain| ==> plain[i] != '"' && plain[i] != '\\'
    ensures Close(plain + rest) == |plain| + Close(rest)
  {
    if plain == "" {
      assert plain + rest == rest;
    } else {
      CloseStepsOverPlain(plain[1..], rest);
      assert (plain + rest)[1..] == plain[1..] + rest;
    }
  }

  lemma CloseStepsOver(c: char, rest: string)
    ensures Close(Escape(c) + rest) == |Escape(c)| + Close(rest)
  {
    var e := Escape(c);
    if |e| == 1 {
      CloseStepsOverPlain(e, rest);
    } else {
      assert (e + rest)[2..] == e[2..] + rest;
      if |e| == 6 {
        var high, low := HEX[c as int / 16], HEX[c as int % 16];
        assert forall i :: 0 <= i < 16 ==> HEX[i] != '"' && HEX[i] != '\\';
        assert e[2..] == ['0', '0', high, low];
      }
      CloseStepsOverPlain(e[2..], rest);
    }
  }

  /** The scan for the closing quote steps over everything an escaped string contains. */
  lemma {:induction false} CloseOfEscaped(s: string, rest: string)
    ensures Close(Escaped(s) + ("\"" + rest)) == |Escaped(s)| + 1
  {
    if s == "" {
      assert Escaped(s) + ("\"" + rest) == "\"" + rest;
    } else {
      ConcatAssoc(Escape(s[0]), Escaped(s[1..]), "\"" + rest);
      CloseStepsOver(s[0], Escaped(s[1..]) + ("\"" + rest));
      CloseOfEscaped(s[1..], rest);
    }
  }

  lemma FirstQuoted(s: string, rest: string)
    ensures var after := Span(rest, IsSpace);
      First(Quote(s) + rest) == Token(if after < |rest| && rest[after] == ':' then Key else String, Quote(s))
  {
    QuotedTail(Escaped(s), rest);
    CloseOfEscaped(s, rest);
  }

  lemma ScanQuoted(s: string, rest: string)
    ensures var after := Span(rest, IsSpace);
      Scan(Quote(s) + rest) ==
        [Token(if after < |rest| && rest[after] == ':' then Key else String, Quote(s))] + Scan(rest)
  {
    QuotedTail(Escaped(s), rest);
    FirstQuoted(s, rest);
    ScanFirst(Quote(s) + rest);
  }

  lemma QuotedTail(e: string, rest: string)
    ensures var q := "\"" + e + "\""; var t := q + rest;
      t[1..] == e + ("\"" + rest) && t[..|q|] == q && t[|q|..] == rest && t[0] == '"'
  {
  }

  /** What may follow a value: the end, or white space and then a comma or a closing bracket. */
  predicate Ends(rest: string) {
    var n := Span(rest, IsSpace);
    n == |rest| || rest[n] == ',' || rest[n] == ']' || rest[n] == '}'
  }

  lemma PadIsBlank(n: nat)
    ensures forall i :: 0 <= i < |"\n" + Pad(n)| ==> IsSpace(("\n" + Pad(n))[i])
  {
    if n > 0 {
      PadIsBlank(n - 1);
      assert forall i :: 0 <= i < |Pad(n)| ==> IsSpace(Pad(n)[i]) by {
        forall i | 0 <= i < |Pad(n)|
          ensures IsSpace(Pad(n)[i])
        {
          if i > 0 { assert Pad(n)[i] == ("\n" + Pad(n - 1))[i]; }
        }
      }
    }
  }

  lemma EndsAfterLine(n: nat, c: char, rest: string)
    requires c == ',' || c == ']' || c == '}'
    ensures Ends("\n" + Pad(n) + ([c] + rest)) && Ends([c] + rest)
  {
    PadIsBlank(n);
    SpanOfConcat("\n" + Pad(n), [c] + rest);
    assert Span([c] + rest, IsSpace) == 0;
  }

  lemma Regroup(a: string, b: string, c: string, d: string, rest: string)
    ensures a + b + (c + d) + rest == a + (b + (c + (d + rest)))
    ensures a + b + rest == a + (b + rest)
  {
    ConcatAssoc(a + b, c + d, rest);
    ConcatAssoc(c, d, rest);
    ConcatAssoc(a, b, c + (d + rest));
    ConcatAssoc(a, b, rest);
  }

  /** A bracketed, non-empty list: its elements, a line break with the closing indent, the bracket. */
  lemma ScanBrackets(open: char, inner: string, close: char, indent: nat, inside: seq<Token>, rest: string)
    requires IsPunct(open) && (close == ']' || close == '}')
    requires Scan(inner + ("\n" + Pad(indent) + ([close] + rest))) ==
             inside + Scan("\n" + Pad(indent) + ([close] + rest))
    ensures Scan([open] + inner + ("\n" + Pad(indent) + [close]) + rest)
         == [Token(Punct, [open])] + inside + [Token(Punct, [close])] + Scan(rest)
  {
    var line := "\n" + Pad(indent);
    Regroup([open], inner, line, [close], rest);
    ScanPunct(open, inner + (line + ([close] + rest)));
    PadIsBlank(indent);
    ScanBlank(line, [close] + rest);
    ScanPunct(close, rest);
  }

  lemma ScanEmpty(open: char, close: char, rest: string)
    requires IsPunct(open) && IsPunct(close)
    ensures Scan([open, close] + rest) == [Token(Punct, [open])] + [] + [Token(Punct, [close])] + Scan(rest)
  {
    assert [open, close] + rest == [open] + ([close] + rest);
    ScanPunct(open, [close] + rest);
    ScanPunct(close, rest);
  }

  lemma {:induction false} ScanPrinted(v: Json, indent: nat, rest: string)
    requires WellFormed(v) && Ends(rest)
    ensures Scan(Print(v, indent) + rest) == Tokens(v) + Scan(rest)
    decreases v, 0
  {
    match v
    case Null => ScanWord("null", rest);
    case Bool(b) => ScanWord(if b then "true" else "false", rest);
    case Num(digits) => ScanNumber(digits, rest);
    case Str(s) => ScanQuoted(s, rest);
    case Arr(items) =>
      if items == [] {
        ScanEmpty('[', ']', rest);
      } else {
        EndsAfterLine(indent, ']', rest);
        ScanItems(items, indent + 2, "\n" + Pad(indent) + ("]" + rest));
        ScanBrackets('[', PrintItems(items, indent + 2), ']', indent, ItemTokens(items), rest);
      }
    case Obj(members) =>
      if members == [] {
        ScanEmpty('{', '}', rest);
      } else {
        EndsAfterLine(indent, '}', rest);
        ScanMembers(members, indent + 2, "\n" + Pad(indent) + ("}" + rest));
        ScanBrackets('{', PrintMembers(members, indent + 2), '}', indent, MemberTokens(members), rest);
      }
  }

  /** After an element: nothing more of the list, or a comma and the other elements. */
  function After(others: string, rest: string): string {
    if others == "" then rest else "," + (others + rest)
  }

  lemma AfterEnds(others: string, rest: string)
    requires Ends(rest)
    ensures Ends(After(others, rest))
  {
    if others != "" {
      EndsAfterLine(0, ',', others + rest);
    }
  }

  lemma ScanAfter(others: string, tokens: seq<Token>, rest: string)
    requires others != "" ==> Scan(others + rest) == tokens + Scan(rest)
    ensures Scan(After(others, rest)) == (if others == "" then [] else [Token(Punct, ",")] + tokens) + Scan(rest)
  {
    if others == "" {
      assert [] + Scan(rest) == Scan(rest);
    } else {
      ScanPunct(',', others + rest);
      ConcatAssoc([Token(Punct, ",")], tokens, Scan(rest));
    }
  }

  lemma {:induction false} ScanItems(items: seq<Json>, indent: nat, rest: string)
    requires items != [] && Ends(rest) && forall i :: 0 <= i < |items| ==> WellFormed(items[i])
    ensures Scan(PrintItems(items, indent) + rest) == ItemTokens(items) + Scan(rest)
    decreases items, 1
  {
    var line := "\n" + Pad(indent);
    var others := PrintItems(items[1..], indent);
    if |items| > 1 {
      ScanItems(items[1..], indent, rest);
      assert others[0] == '\n';
    }
    AfterEnds(others, rest);
    ScanAfter(others, ItemTokens(items[1..]), rest);
    ScanPrinted(items[0], indent, After(others, rest));
    ScanOneItem(indent, Print(items[0], indent), Tokens(items[0]), After(others, rest));
    Regroup(line, Print(items[0], indent), ",", others, rest);
  }

  lemma ScanOneItem(indent: nat, value: string, tokens: seq<Token>, more: string)
    requires Scan(value + more) == tokens + Scan(more)
    ensures Scan("\n" + Pad(indent) + (value + more)) == tokens + Scan(more)
  {
    PadIsBlank(indent);
    ScanBlank("\n" + Pad(indent), value + more);
  }

  lemma ScanColon(rest: string)
    ensures Span(": " + rest, IsSpace) == 0 && Scan(": " + rest) == [Token(Punct, ":")] + Scan(rest)
  {
    assert ": " + rest == ":" + (" " + rest);
    ScanPunct(':', " " + rest);
    ScanBlank(" ", rest);
  }

  lemma ScanName(name: string, rest: string)
    ensures Scan(Quote(name) + (": " + rest)) == [Token(Key, Quote(name)), Token(Punct, ":")] + Scan(rest)
  {
    ScanColon(rest);
    ScanQuoted(name, ": " + rest);
    ConcatAssoc([Token(Key, Quote(name))], [Token(Punct, ":")], Scan(rest));
  }

  /** What follows a member: nothing, or a comma and the tokens of the other members. */
  function TokensAfter(members: seq<Member>): seq<Token>
    requires members != []
  {
    if |members| == 1 then [] else [Token(Punct, ",")] + MemberTokens(members[1..])
  }

  lemma ScanOtherMembers(members: seq<Member>, indent: nat, others: string, rest: string)
    requires members != [] && Ends(rest) && others == PrintMembers(members[1..], indent)
    requires |members| > 1 ==> Scan(others + rest) == MemberTokens(members[1..]) + Scan(rest)
    ensures Ends(After(others, rest)) && Scan(After(others, rest)) == TokensAfter(members) + Scan(rest)
    ensures |members| > 1 <==> others != ""
  {
    if |members| > 1 {
      assert others[0] == '\n';
    }
    AfterEnds(others, rest);
    ScanAfter(others, MemberTokens(members[1..]), rest);
  }

  lemma {:induction false} ScanMembers(members: seq<Member>, indent: nat, rest: string)
    requires members != [] && Ends(rest) && forall i :: 0 <= i < |members| ==> WellFormed(members[i].value)
    ensures Scan(PrintMembers(members, indent) + rest) == MemberTokens(members) + Scan(rest)
    decreases members, 1
  {
    var line := "\n" + Pad(indent);
    var Member(name, v) := members[0];
    var others := PrintMembers(members[1..], indent);
    if |members| > 1 {
      ScanMembers(members[1..], indent, rest);
    }
    ScanOtherMembers(members, indent, others, rest);
    ScanPrinted(v, indent, After(others, rest));
    ScanOneMember(indent, name, Print(v, indent), Tokens(v), After(others, rest));
    RegroupMember(line, Quote(name), Print(v, indent), others, rest);
    ConcatAssoc([Token(Key, Quote(name)), Token(Punct, ":")] + Tokens(v), TokensAfter(members), Scan(rest));
  }

  lemma ScanOneMember(indent: nat, name: string, value: string, tokens: seq<Token>, more: string)
    requires Scan(value + more) == tokens + Scan(more)
    ensures Scan("\n" + Pad(indent) + (Quote(name) + (": " + (value + more))))
         == [Token(Key, Quote(name)), Token(Punct, ":")] + tokens + Scan(more)
  {
    PadIsBlank(indent);
    ScanName(name, value + more);
    ScanBlank("\n" + Pad(indent), Quote(name) + (": " + (value + more)));
  }

  lemma RegroupMember(line: string, name: string, value: string, others: string, rest: string)
    ensures var one := line + name + ": " + value;
      (if others == "" then one else one + ("," + others)) + rest ==
        line + (name + (": " + (value + After(others, rest))))
  {
    var more := After(others, rest);
    ConcatAssoc(line + name + ": " + value, "," + others, rest);
    ConcatAssoc(",", others, rest);
    ConcatAssoc(line + name + ": ", value, more);
    ConcatAssoc(line + name, ": ", value + more);
    ConcatAssoc(line, name, ": " + (value + more));
  }

  /** Scanning the printed form of a value gives exactly its tokens: `Key` for member names and nowhere else. */
  lemma PrinterAndScannerAgree(v: Json)
    requires WellFormed(v)
    ensures Scan(Print(v, 0)) == Tokens(v)
  {
    ScanPrinted(v, 0, "");
    assert Print(v, 0) + "" == Print(v, 0);
    assert Tokens(v) + Scan("") == Tokens(v);
  }
}
