/** The layout of a printed value: line breaks and indents follow from its tokens alone. */
module JsonLayout {
  import opened Basics
  import opened JsonTokens
  import opened JsonPrinter

  /** A line break and two spaces for every bracket that is open. */
  function Line(depth: int): (line: string)
    ensures |line| == 1 + 2 * (if depth > 0 then depth else 0)
    ensures line[0] == '\n' && forall i :: 0 < i < |line| ==> line[i] == ' '
  {
    ['\n'] + seq(2 * (if depth > 0 then depth else 0), _ => ' ')
  }

  predicate IsThis(token: Token, c: char) {
    token == Token(Punct, [c])
  }

  predicate Opens(token: Token) {
    IsThis(token, '{') || IsThis(token, '[')
  }

  predicate Closes(token: Token) {
    IsThis(token, '}') || IsThis(token, ']')
  }

  /**
   The tokens one after the other, `depth` brackets being open: a line break behind an opening
   bracket and a comma and before a closing bracket, none inside an empty pair, a space behind a colon.
   */
  function Laid(tokens: seq<Token>, depth: int): string
    decreases |tokens|
  {
    if tokens == [] then ""
    else
      var t, rest := tokens[0], tokens[1..];
      if Opens(t) then
        if rest != [] && Closes(rest[0]) then t.text + rest[0].text + Laid(rest[1..], depth)
        else t.text + Line(depth + 1) + Laid(rest, depth + 1)
      else if Closes(t) then Line(depth - 1) + t.text + Laid(rest, depth - 1)
      else if IsThis(t, ',') then t.text + Line(depth) + Laid(rest, depth)
      else if IsThis(t, ':') then t.text + " " + Laid(rest, depth)
      else t.text + Laid(rest, depth)
  }

  lemma LaidFirst(t: Token, rest: seq<Token>, depth: int)
    ensures Laid([t] + rest, depth) ==
      if Opens(t) then
        if rest != [] && Closes(rest[0]) then t.text + rest[0].text + Laid(rest[1..], depth)
        else t.text + Line(depth + 1) + Laid(rest, depth + 1)
      else if Closes(t) then Line(depth - 1) + t.text + Laid(rest, depth - 1)
      else if IsThis(t, ',') then t.text + Line(depth) + Laid(rest, depth)
      else if IsThis(t, ':') then t.text + " " + Laid(rest, depth)
      else t.text + Laid(rest, depth)
  {
    assert ([t] + rest)[1..] == rest;
  }

  lemma {:induction false} PadIsSpaces(n: nat)
    ensures |Pad(n)| == n && forall i :: 0 <= i < n ==> Pad(n)[i] == ' '
  {
    if n > 0 {
      PadIsSpaces(n - 1);
    }
  }

  lemma LineIsPad(depth: nat, n: nat)
    requires n == 2 * depth
    ensures Line(depth) == "\n" + Pad(n)
  {
    PadIsSpaces(n);
  }

  /** A value does not begin with a closing bracket. */
  lemma FirstIsNoClose(v: Json)
    ensures Tokens(v) != [] && !Closes(Tokens(v)[0])
  {
  }

  lemma FirstNameIsNoClose(members: seq<Member>)
    requires members != []
    ensures MemberTokens(members) != [] && !Closes(MemberTokens(members)[0])
  {
    assert MemberTokens(members)[0].kind == Key;
  }

  lemma Alone(kind: Kind, text: string, more: seq<Token>, depth: int)
    requires kind != Punct
    ensures Laid([Token(kind, text)] + more, depth) == text + Laid(more, depth)
  {
    LaidFirst(Token(kind, text), more, depth);
  }

  lemma EmptyPair(open: char, close: char, more: seq<Token>, depth: int)
    requires open == '{' || open == '['
    requires close == '}' || close == ']'
    ensures Laid([Token(Punct, [open])] + [] + [Token(Punct, [close])] + more, depth) ==
            [open, close] + Laid(more, depth)
  {
    var rest := [Token(Punct, [close])] + more;
    assert [Token(Punct, [open])] + [] + [Token(Punct, [close])] + more == [Token(Punct, [open])] + rest;
    LaidFirst(Token(Punct, [open]), rest, depth);
    assert rest[1..] == more;
  }

  /** A pair with something between, given how that is laid out. */
  lemma FilledPair(open: char, close: char, inner: seq<Token>, text: string, more: seq<Token>, depth: nat)
    requires open == '{' || open == '['
    requires close == '}' || close == ']'
    requires inner != [] && !Closes(inner[0])
    requires Line(depth + 1) + Laid(inner + ([Token(Punct, [close])] + more), depth + 1)
          == text + Laid([Token(Punct, [close])] + more, depth + 1)
    ensures Laid([Token(Punct, [open])] + inner + [Token(Punct, [close])] + more, depth)
         == [open] + text + (Line(depth) + [close]) + Laid(more, depth)
  {
    var o, c := [Token(Punct, [open])], [Token(Punct, [close])];
    var rest := inner + (c + more);
    ConcatAssoc(o, inner, c);
    ConcatAssoc(o, inner + c, more);
    ConcatAssoc(inner, c, more);
    LaidFirst(o[0], rest, depth);
    LaidFirst(c[0], more, depth + 1);
    Brackets([open], Line(depth + 1), Laid(rest, depth + 1), text, Laid(c + more, depth + 1), Line(depth), [close],
             Laid(more, depth));
  }

  lemma Brackets(open: string, line: string, inside: string, text: string, after: string, last: string, close: string,
                 more: string)
    requires line + inside == text + after && after == last + close + more
    ensures open + line + inside == open + text + (last + close) + more
  {
    ConcatAssoc(open, line, inside);
    ConcatAssoc(open, text, after);
    ConcatAssoc(open + text, last + close, more);
  }

  lemma {:induction false} PrintIsLaid(v: Json, depth: nat, n: nat, more: seq<Token>)
    requires n == 2 * depth
    ensures Laid(Tokens(v) + more, depth) == Print(v, n) + Laid(more, depth)
    decreases v, 0
  {
    match v
    case Null => Alone(NullWord, "null", more, depth);
    case Bool(b) => Alone(Boolean, if b then "true" else "false", more, depth);
    case Num(digits) => Alone(Number, digits, more, depth);
    case Str(s) => Alone(String, Quote(s), more, depth);
    case Arr(items) => ArrayIsLaid(items, depth, n, more);
    case Obj(members) => ObjectIsLaid(members, depth, n, more);
  }

  lemma {:induction false} ArrayIsLaid(items: seq<Json>, depth: nat, n: nat, more: seq<Token>)
    requires n == 2 * depth
    ensures Laid(Tokens(Arr(items)) + more, depth) == Print(Arr(items), n) + Laid(more, depth)
    decreases items, 2
  {
    if items == [] {
      EmptyPair('[', ']', more, depth);
    } else {
      FirstIsNoClose(items[0]);
      ItemsAreLaid(items, depth + 1, n + 2, [Token(Punct, "]")] + more);
      LineIsPad(depth, n);
      FilledPair('[', ']', ItemTokens(items), PrintItems(items, n + 2), more, depth);
    }
  }

  lemma {:induction false} ObjectIsLaid(members: seq<Member>, depth: nat, n: nat, more: seq<Token>)
    requires n == 2 * depth
    ensures Laid(Tokens(Obj(members)) + more, depth) == Print(Obj(members), n) + Laid(more, depth)
    decreases members, 2
  {
    if members == [] {
      EmptyPair('{', '}', more, depth);
    } else {
      FirstNameIsNoClose(members);
      MembersAreLaid(members, depth + 1, n + 2, [Token(Punct, "}")] + more);
      LineIsPad(depth, n);
      FilledPair('{', '}', MemberTokens(members), PrintMembers(members, n + 2), more, depth);
    }
  }

  /** A comma, and what follows it on the next line. */
  lemma CommaLaid(others: seq<Token>, text: string, more: seq<Token>, depth: nat)
    requires Line(depth) + Laid(others + more, depth) == text + Laid(more, depth)
    ensures Laid([Token(Punct, ",")] + others + more, depth) == "," + text + Laid(more, depth)
  {
    ConcatAssoc([Token(Punct, ",")], others, more);
    LaidFirst(Token(Punct, ","), others + more, depth);
    ConcatAssoc(",", Line(depth), Laid(others + more, depth));
    ConcatAssoc(",", text, Laid(more, depth));
  }

  lemma {:induction false} ItemsAreLaid(items: seq<Json>, depth: nat, n: nat, more: seq<Token>)
    requires items != [] && n == 2 * depth
    ensures Line(depth) + Laid(ItemTokens(items) + more, depth) == PrintItems(items, n) + Laid(more, depth)
    decreases items, 1
  {
    var first, value := Tokens(items[0]), Print(items[0], n);
    LineIsPad(depth, n);
    if |items| == 1 {
      assert ItemTokens(items) == first;
      PrintIsLaid(items[0], depth, n, more);
      OneLine(Line(depth), value, Laid(more, depth));
    } else {
      var others := ItemTokens(items[1..]);
      var text := PrintItems(items[1..], n);
      ItemsAreLaid(items[1..], depth, n, more);
      CommaLaid(others, text, more, depth);
      PrintIsLaid(items[0], depth, n, [Token(Punct, ",")] + others + more);
      ConcatAssoc(first, [Token(Punct, ",")] + others, more);
      MoreLines(Line(depth), value, text, Laid(more, depth));
    }
  }

  lemma OneLine(line: string, value: string, rest: string)
    ensures line + (value + rest) == (line + value) + rest
  {
  }

  lemma MoreLines(line: string, value: string, text: string, rest: string)
    ensures line + (value + ("," + text + rest)) == (line + value) + ("," + text) + rest
  {
  }

  lemma NameLaid(name: string, value: seq<Token>, more: seq<Token>, depth: int)
    ensures Laid([Token(Key, Quote(name)), Token(Punct, ":")] + value + more, depth)
         == Quote(name) + ": " + Laid(value + more, depth)
  {
    var rest := [Token(Punct, ":")] + (value + more);
    assert [Token(Key, Quote(name)), Token(Punct, ":")] == [Token(Key, Quote(name))] + [Token(Punct, ":")];
    ConcatAssoc([Token(Key, Quote(name))], [Token(Punct, ":")], value);
    ConcatAssoc([Token(Key, Quote(name))], [Token(Punct, ":")] + value, more);
    ConcatAssoc([Token(Punct, ":")], value, more);
    Alone(Key, Quote(name), rest, depth);
    LaidFirst(Token(Punct, ":"), value + more, depth);
    assert ":" + " " == ": ";
    ConcatAssoc(Quote(name), ": ", Laid(value + more, depth));
  }

  /** The last member, given how its value is laid out. */
  lemma LastMemberLaid(member: Member, value: string, more: seq<Token>, depth: nat)
    requires Laid(Tokens(member.value) + more, depth) == value + Laid(more, depth)
    ensures Line(depth) + Laid(MemberTokens([member]) + more, depth)
         == (Line(depth) + Quote(member.name) + ": " + value) + Laid(more, depth)
  {
    var head := [Token(Key, Quote(member.name)), Token(Punct, ":")];
    assert MemberTokens([member]) + more == head + Tokens(member.value) + more;
    NameLaid(member.name, Tokens(member.value), more, depth);
    OneMember(Line(depth), Quote(member.name), value, Laid(more, depth));
  }

  /** A member and others, given how its value and the others are laid out. */
  lemma FirstMemberLaid(member: Member, value: string, others: seq<Token>, text: string, all: seq<Token>,
                        more: seq<Token>, depth: nat)
    requires all == [Token(Key, Quote(member.name)), Token(Punct, ":")] + Tokens(member.value)
                    + ([Token(Punct, ",")] + others)
    requires var comma := [Token(Punct, ",")] + others + more;
             && Laid(comma, depth) == "," + text + Laid(more, depth)
             && Laid(Tokens(member.value) + comma, depth) == value + Laid(comma, depth)
    ensures Line(depth) + Laid(all + more, depth)
         == (Line(depth) + Quote(member.name) + ": " + value) + ("," + text) + Laid(more, depth)
  {
    var head := [Token(Key, Quote(member.name)), Token(Punct, ":")];
    var comma := [Token(Punct, ",")] + others + more;
    assert all + more == head + Tokens(member.value) + comma;
    NameLaid(member.name, Tokens(member.value), comma, depth);
    MoreMembers(Line(depth), Quote(member.name), value, text, Laid(more, depth));
  }

  lemma {:induction false} MembersAreLaid(members: seq<Member>, depth: nat, n: nat, more: seq<Token>)
    requires members != [] && n == 2 * depth
    ensures Line(depth) + Laid(MemberTokens(members) + more, depth) == PrintMembers(members, n) + Laid(more, depth)
    decreases members, 1
  {
    var member, v := members[0], members[0].value;
    LineIsPad(depth, n);
    if |members| == 1 {
      PrintIsLaid(v, depth, n, more);
      assert members == [member];
      LastMemberLaid(member, Print(v, n), more, depth);
    } else {
      var others, text := MemberTokens(members[1..]), PrintMembers(members[1..], n);
      MembersAreLaid(members[1..], depth, n, more);
      CommaLaid(others, text, more, depth);
      PrintIsLaid(v, depth, n, [Token(Punct, ",")] + others + more);
      FirstMemberLaid(member, Print(v, n), others, text, MemberTokens(members), more, depth);
    }
  }

  lemma OneMember(line: string, name: string, value: string, rest: string)
    ensures line + (name + ": " + (value + rest)) == (line + name + ": " + value) + rest
  {
  }

  lemma MoreMembers(line: string, name: string, value: string, text: string, rest: string)
    ensures line + (name + ": " + (value + ("," + text + rest))) == (line + name + ": " + value) + ("," + text) + rest
  {
  }

  /** The printed form of a value is its tokens, laid out by the brackets that are open. */
  lemma PrintedAsLaid(v: Json)
    ensures Print(v, 0) == Laid(Tokens(v), 0)
  {
    PrintIsLaid(v, 0, 0, []);
    assert Tokens(v) + [] == Tokens(v);
    assert Print(v, 0) + Laid([], 0) == Print(v, 0);
  }
}
