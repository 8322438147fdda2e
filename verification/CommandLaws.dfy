/** The parser accepts exactly the written lines; quoting and joining lines behave as expected. */
module CommandLaws {
  import opened Basics
  import opened Texts
  import opened CommandLine
  import opened CommandGrammar

  // What the parser does with each part of a line.

  predicate Outside(s: State) {
    s.quote.None? && !s.escaped
  }

  lemma RunOne(s: State, c: char)
    ensures Run(s, [c]) == Step(s, c)
  {
    RunNext(s, "", c);
    assert "" + [c] == [c];
  }

  lemma {:induction false} GapRuns(s: State, gap: string)
    requires Outside(s) && IsGap(gap)
    ensures Run(s, gap) == if gap == "" || !s.started then s else State(s.args + [s.token], "", None, false, false)
  {
    if gap != "" {
      GapRuns(s, gap[..|gap| - 1]);
    }
  }

  lemma {:induction false} SingleRuns(s: State, text: string)
    requires s.quote == Some(SINGLE) && !s.escaped && s.started && SINGLE !in text
    ensures Run(s, text) == s.(token := s.token + text)
  {
    if text == "" {
      assert s.token + "" == s.token;
    } else {
      var n := |text| - 1;
      SingleRuns(s, text[..n]);
      ConcatAssoc(s.token, text[..n], [text[n]]);
      assert text == text[..n] + [text[n]];
    }
  }

  lemma {:induction false} ItemsRun(s: State, items: seq<Item>)
    requires s.quote == Some(DOUBLE) && !s.escaped && s.started && PieceFits(Double(items))
    ensures Run(s, ItemsText(items)) == s.(token := s.token + ItemsValue(items))
  {
    if items == [] {
      assert s.token + "" == s.token;
    } else {
      var n := |items| - 1;
      var before, item := items[..n], items[n];
      ItemsRun(s, before);
      ConcatAssoc(s.token, ItemsValue(before), [item.c]);
      ItemRuns(Run(s, ItemsText(before)), item);
      RunBoth(s, ItemsText(before), if item.Plain? then [item.c] else [BACKSLASH, item.c]);
    }
  }

  lemma ItemRuns(s: State, item: Item)
    requires s.quote == Some(DOUBLE) && !s.escaped && s.started && ItemFits(item)
    ensures Run(s, if item.Plain? then [item.c] else [BACKSLASH, item.c]) == s.(token := s.token + [item.c])
  {
    if item.Plain? {
      RunOne(s, item.c);
    } else {
      RunOne(s, BACKSLASH);
      RunNext(s, [BACKSLASH], item.c);
    }
  }

  lemma PieceRuns(s: State, piece: Piece)
    requires Outside(s) && PieceFits(piece)
    ensures Run(s, PieceText(piece)) == State(s.args, s.token + PieceValue(piece), None, false, true)
  {
    match piece
    case Bare(c) => RunOne(s, c);
    case Escaped(c) =>
      RunOne(s, BACKSLASH);
      RunNext(s, [BACKSLASH], c);
    case Single(text) =>
      RunOne(s, SINGLE);
      SingleRuns(Step(s, SINGLE), text);
      RunBoth(s, [SINGLE], text);
      RunNext(s, [SINGLE] + text, SINGLE);
    case Double(items) =>
      RunOne(s, DOUBLE);
      ItemsRun(Step(s, DOUBLE), items);
      RunBoth(s, [DOUBLE], ItemsText(items));
      RunNext(s, [DOUBLE] + ItemsText(items), DOUBLE);
  }

  lemma {:induction false} WordRuns(s: State, word: Word)
    requires Outside(s) && forall piece :: piece in word ==> PieceFits(piece)
    ensures Run(s, WordText(word)) ==
            if word == [] then s else State(s.args, s.token + WordValue(word), None, false, true)
  {
    if word != [] {
      var n := |word| - 1;
      WordRuns(s, word[..n]);
      var between := Run(s, WordText(word[..n]));
      RunBoth(s, WordText(word[..n]), PieceText(word[n]));
      PieceRuns(between, word[n]);
      assert s.token + "" == s.token;
      ConcatAssoc(s.token, WordValue(word[..n]), PieceValue(word[n]));
    }
  }

  lemma GapThenWord(s: State, gap: string, word: Word)
    requires Outside(s) && IsGap(gap) && WordFits(word) && (if s.started then gap != "" else s.token == "")
    ensures Run(s, gap + WordText(word))
         == State(if s.started then s.args + [s.token] else s.args, WordValue(word), None, false, true)
  {
    RunBoth(s, gap, WordText(word));
    GapRuns(s, gap);
    WordRuns(Run(s, gap), word);
    assert "" + WordValue(word) == WordValue(word);
  }

  /** After a line its words but the last are arguments, and the last is the word in hand. */
  lemma {:induction false} LineRuns(words: seq<Word>, gaps: seq<string>)
    requires LineFits(words, gaps)
    ensures Run(INITIAL, LineText(words, gaps))
         == if words == [] then INITIAL
            else State(Values(words[..|words| - 1]), WordValue(words[|words| - 1]), None, false, true)
  {
    if words != [] {
      var n := |words| - 1;
      var line, gap, word := LineText(words[..n], gaps[..n]), gaps[n], words[n];
      LineRuns(words[..n], gaps[..n]);
      ConcatAssoc(line, gap, WordText(word));
      RunBoth(INITIAL, line, gap + WordText(word));
      GapThenWord(Run(INITIAL, line), gap, word);
    }
  }

  // Exactly the written lines are accepted.

  /** `input` is the words, each after its gap, and perhaps a gap at the end. */
  ghost predicate Spells(input: string, words: seq<Word>, gaps: seq<string>, rest: string) {
    LineFits(words, gaps) && IsGap(rest) && input == LineText(words, gaps) + rest
  }

  lemma SpelledIsParsed(input: string, words: seq<Word>, gaps: seq<string>, rest: string)
    requires Spells(input, words, gaps, rest)
    ensures Parse(input) == if words == [] || Values(words)[0] == "" then NoCommand else Arguments(Values(words))
  {
    var s := Run(INITIAL, LineText(words, gaps));
    LineRuns(words, gaps);
    RunBoth(INITIAL, LineText(words, gaps), rest);
    GapRuns(s, rest);
  }

  lemma FinishedIsSpelled(input: string) returns (words: seq<Word>, gaps: seq<string>, rest: string)
    requires Parse(input) != Unfinished
    ensures Spells(input, words, gaps, rest)
  {
    var r := ReadAll(input);
    assert r.open == Nothing;
    words, gaps, rest := ReadingSpells(r);
  }

  lemma ReadingSpells(r: Reading) returns (words: seq<Word>, gaps: seq<string>, rest: string)
    requires ReadingFits(r) && r.open == Nothing
    ensures Spells(ReadingText(r), words, gaps, rest)
  {
    if r.word == [] {
      words, gaps, rest := r.words, r.gaps, r.gap;
    } else {
      words, gaps, rest := r.words + [r.word], r.gaps + [r.gap], "";
      LineSnoc(r.words, r.gaps, r.word, r.gap);
      FitsSnoc(r.words, r.gaps, r.word, r.gap);
    }
  }

  ghost predicate IsSpelled(input: string) {
    exists words, gaps, rest :: Spells(input, words, gaps, rest)
  }

  /** A quotation or an escape is left open exactly when the input is not a line. */
  lemma UnfinishedExactly(input: string)
    ensures Parse(input) == Unfinished <==> !IsSpelled(input)
  {
    if Parse(input) != Unfinished {
      var words, gaps, rest := FinishedIsSpelled(input);
    }
    if words, gaps, rest :| Spells(input, words, gaps, rest) {
      SpelledIsParsed(input, words, gaps, rest);
    }
  }

  ghost predicate Means(input: string, args: seq<string>) {
    exists words, gaps, rest :: Spells(input, words, gaps, rest) && Values(words) == args
  }

  /** The arguments are the values of the words, whichever way the line is taken apart. */
  lemma ParsesExactly(input: string, args: seq<string>)
    ensures Parse(input) == Arguments(args) <==> args != [] && args[0] != "" && Means(input, args)
  {
    if Parse(input) == Arguments(args) {
      var words, gaps, rest := FinishedIsSpelled(input);
      SpelledIsParsed(input, words, gaps, rest);
    }
    if words, gaps, rest :| Spells(input, words, gaps, rest) && Values(words) == args {
      SpelledIsParsed(input, words, gaps, rest);
    }
  }

  // Quoting.

  /** The word between single quotes, with '\\'' for each single quote in it. */
  function Quoted(w: string): string {
    [SINGLE] + Body(w) + [SINGLE]
  }

  function Body(w: string): string {
    if w == "" then ""
    else
      var n := |w| - 1;
      Body(w[..n]) + if w[n] == SINGLE then [SINGLE, BACKSLASH, SINGLE, SINGLE] else [w[n]]
  }

  /** A character put before the closing quote. */
  lemma BeforeLastQuote(front: string, text: string, body: string, c: char)
    requires front + ([SINGLE] + text + [SINGLE]) == [SINGLE] + body + [SINGLE]
    ensures front + ([SINGLE] + (text + [c]) + [SINGLE]) == [SINGLE] + (body + [c]) + [SINGLE]
  {
    var t := front + ([SINGLE] + text + [SINGLE]);
    assert t[..|t| - 1] == front + ([SINGLE] + text);
    assert ([SINGLE] + body + [SINGLE])[..|t| - 1] == [SINGLE] + body;
    assert front + ([SINGLE] + (text + [c]) + [SINGLE]) == (front + ([SINGLE] + text)) + [c] + [SINGLE];
  }

  lemma QuotedCharacter(front: Word, text: string, w: string, c: char)
    requires c != SINGLE && WordText(front + [Single(text)]) == Quoted(w) && WordValue(front + [Single(text)]) == w
    ensures WordText(front + [Single(text + [c])]) == Quoted(w + [c])
    ensures WordValue(front + [Single(text + [c])]) == w + [c]
  {
    WordSnoc(front, Single(text));
    WordSnoc(front, Single(text + [c]));
    BeforeLastQuote(WordText(front), text, Body(w), c);
    ConcatAssoc(WordValue(front), text, [c]);
    assert (w + [c])[..|w|] == w;
  }

  lemma QuotedQuote(word: Word, w: string)
    requires WordText(word) == Quoted(w) && WordValue(word) == w
    ensures WordText(word + [Escaped(SINGLE)] + [Single("")]) == Quoted(w + [SINGLE])
    ensures WordValue(word + [Escaped(SINGLE)] + [Single("")]) == w + [SINGLE]
  {
    var escape, open := [BACKSLASH, SINGLE], [SINGLE] + "" + [SINGLE];
    var body := Body(w);
    WordSnoc(word, Escaped(SINGLE));
    WordSnoc(word + [Escaped(SINGLE)], Single(""));
    assert (w + [SINGLE])[..|w|] == w;
    assert open == [SINGLE, SINGLE];
    CloseEscapeOpen(body);
    assert w + [SINGLE] + "" == w + [SINGLE];
  }

  lemma CloseEscapeOpen(body: string)
    ensures [SINGLE] + body + [SINGLE] + [BACKSLASH, SINGLE] + [SINGLE, SINGLE]
         == [SINGLE] + (body + [SINGLE, BACKSLASH, SINGLE, SINGLE]) + [SINGLE]
  {
  }

  /** The quoted word is the pieces `front` and the quotation `text` that is closed at the end. */
  ghost predicate QuotedAs(w: string, front: Word, text: string) {
    && SINGLE !in text && (forall piece :: piece in front ==> PieceFits(piece))
    && WordText(front + [Single(text)]) == Quoted(w) && WordValue(front + [Single(text)]) == w
  }

  lemma QuotedNext(w: string, c: char, front: Word, text: string) returns (frontNow: Word, textNow: string)
    requires QuotedAs(w, front, text)
    ensures QuotedAs(w + [c], frontNow, textNow)
  {
    if c == SINGLE {
      var longer := front + [Single(text)];
      QuotedQuote(longer, w);
      frontNow, textNow := longer + [Escaped(SINGLE)], "";
    } else {
      QuotedCharacter(front, text, w, c);
      frontNow, textNow := front, text + [c];
    }
  }

  lemma {:induction false} QuotedIsWord(w: string) returns (front: Word, text: string)
    ensures QuotedAs(w, front, text)
  {
    if w == "" {
      front, text := [], "";
      WordSnoc([], Single(""));
      assert [] + [Single("")] == [Single("")];
    } else {
      var v, c := w[..|w| - 1], w[|w| - 1];
      assert w == v + [c];
      front, text := QuotedIsWord(v);
      front, text := QuotedNext(v, c, front, text);
    }
  }

  /** The quoted words, joined by spaces. */
  function QuotedLine(argv: seq<string>): string {
    if argv == [] then ""
    else
      var n := |argv| - 1;
      QuotedLine(argv[..n]) + (if n == 0 then "" else " ") + Quoted(argv[n])
  }

  lemma FitsSnoc(words: seq<Word>, gaps: seq<string>, word: Word, gap: string)
    requires LineFits(words, gaps) && WordFits(word) && IsGap(gap) && (words != [] ==> gap != "")
    ensures LineFits(words + [word], gaps + [gap])
  {
  }

  lemma {:induction false} QuotedLineSpells(argv: seq<string>) returns (words: seq<Word>, gaps: seq<string>)
    ensures LineFits(words, gaps) && LineText(words, gaps) == QuotedLine(argv) && Values(words) == argv
  {
    if argv == [] {
      words, gaps := [], [];
    } else {
      var before, last := argv[..|argv| - 1], argv[|argv| - 1];
      assert argv == before + [last];
      var w, g := QuotedLineSpells(before);
      var front, text := QuotedIsWord(last);
      var word, gap := front + [Single(text)], if before == [] then "" else " ";
      LineSnoc(w, g, word, gap);
      FitsSnoc(w, g, word, gap);
      words, gaps := w + [word], g + [gap];
    }
  }

  /** Quoting every word and parsing the line gives the words back. */
  lemma QuotingRoundTrip(argv: seq<string>)
    requires argv != [] && argv[0] != ""
    ensures Parse(QuotedLine(argv)) == Arguments(argv)
  {
    var words, gaps := QuotedLineSpells(argv);
    assert QuotedLine(argv) == LineText(words, gaps) + "";
    SpelledIsParsed(QuotedLine(argv), words, gaps, "");
  }

  // Joining lines.

  lemma {:induction false} RunAfter(args: seq<string>, s: State, input: string)
    ensures Run(s.(args := args + s.args), input) == Run(s, input).(args := args + Run(s, input).args)
  {
    if input != "" {
      var n := |input| - 1;
      RunAfter(args, s, input[..n]);
      ConcatAssoc(args, Run(s, input[..n]).args, [Run(s, input[..n]).token]);
    }
  }

  /** Two lines joined by a space give both lists of arguments. */
  lemma JoinedLines(u: string, v: string, a: seq<string>, b: seq<string>)
    requires Parse(u) == Arguments(a) && Parse(v) == Arguments(b)
    ensures Parse(u + " " + v) == Arguments(a + b)
  {
    var s := Run(INITIAL, u);
    RunNext(INITIAL, u, ' ');
    RunBoth(INITIAL, u + " ", v);
    var r := ReadAll(u);
    assert s == StateOf(r) && (!s.started ==> s.token == "");
    assert a + [] == a;
    assert Run(INITIAL, u + " ") == INITIAL.(args := a + INITIAL.args);
    RunAfter(a, INITIAL, v);
    var t := Run(INITIAL, v);
    ConcatAssoc(a, t.args, [t.token]);
  }
}
