/** What command lines mean: which texts stand for which lists of arguments. */
module CommandGrammar {
  import opened Basics
  import opened Texts
  import opened CommandLine

  /** A character between double quotes, as it is or after a backslash. */
  datatype Item = Plain(c: char) | Backslashed(c: char)

  datatype Piece = Bare(c: char) | Escaped(c: char) | Single(text: string) | Double(items: seq<Item>)

  type Word = seq<Piece>

  predicate ItemFits(item: Item) {
    item.Plain? ==> item.c != DOUBLE && item.c != BACKSLASH
  }

  predicate PieceFits(piece: Piece) {
    match piece
    case Bare(c) => c != BACKSLASH && c != SINGLE && c != DOUBLE && !IsSpace(c)
    case Escaped(_) => true
    case Single(text) => SINGLE !in text
    case Double(items) => forall item :: item in items ==> ItemFits(item)
  }

  predicate WordFits(word: Word) {
    word != [] && forall piece :: piece in word ==> PieceFits(piece)
  }

  predicate IsGap(gap: string) {
    forall i :: 0 <= i < |gap| ==> IsSpace(gap[i])
  }

  // What is written.

  function ItemsText(items: seq<Item>): string {
    if items == [] then ""
    else
      var n := |items| - 1;
      ItemsText(items[..n]) + if items[n].Plain? then [items[n].c] else [BACKSLASH, items[n].c]
  }

  function PieceText(piece: Piece): string {
    match piece
    case Bare(c) => [c]
    case Escaped(c) => [BACKSLASH, c]
    case Single(text) => [SINGLE] + text + [SINGLE]
    case Double(items) => [DOUBLE] + ItemsText(items) + [DOUBLE]
  }

  function WordText(word: Word): string {
    if word == [] then "" else WordText(word[..|word| - 1]) + PieceText(word[|word| - 1])
  }

  /** Each word after its gap. */
  function LineText(words: seq<Word>, gaps: seq<string>): string
    requires |gaps| == |words|
  {
    if words == [] then ""
    else
      var n := |words| - 1;
      LineText(words[..n], gaps[..n]) + gaps[n] + WordText(words[n])
  }

  predicate LineFits(words: seq<Word>, gaps: seq<string>) {
    && |gaps| == |words|
    && (forall word :: word in words ==> WordFits(word))
    && (forall i :: 0 <= i < |gaps| ==> IsGap(gaps[i]) && (i > 0 ==> gaps[i] != ""))
  }

  // What is meant.

  function ItemsValue(items: seq<Item>): string {
    if items == [] then "" else ItemsValue(items[..|items| - 1]) + [items[|items| - 1].c]
  }

  function PieceValue(piece: Piece): string {
    match piece
    case Bare(c) => [c]
    case Escaped(c) => [c]
    case Single(text) => text
    case Double(items) => ItemsValue(items)
  }

  function WordValue(word: Word): string {
    if word == [] then "" else WordValue(word[..|word| - 1]) + PieceValue(word[|word| - 1])
  }

  function Values(words: seq<Word>): (values: seq<string>)
    ensures |values| == |words|
  {
    if words == [] then [] else Values(words[..|words| - 1]) + [WordValue(words[|words| - 1])]
  }

  // The snoc forms.

  lemma ItemsSnoc(items: seq<Item>, item: Item)
    ensures ItemsText(items + [item]) == ItemsText(items) + if item.Plain? then [item.c] else [BACKSLASH, item.c]
    ensures ItemsValue(items + [item]) == ItemsValue(items) + [item.c]
  {
    assert (items + [item])[..|items|] == items;
  }

  lemma WordSnoc(word: Word, piece: Piece)
    ensures WordText(word + [piece]) == WordText(word) + PieceText(piece)
    ensures WordValue(word + [piece]) == WordValue(word) + PieceValue(piece)
  {
    assert (word + [piece])[..|word|] == word;
  }

  lemma LineSnoc(words: seq<Word>, gaps: seq<string>, word: Word, gap: string)
    requires |gaps| == |words|
    ensures LineText(words + [word], gaps + [gap]) == LineText(words, gaps) + gap + WordText(word)
    ensures Values(words + [word]) == Values(words) + [WordValue(word)]
  {
    assert (words + [word])[..|words|] == words && (gaps + [gap])[..|gaps|] == gaps;
  }

  // Every text is read as a line and what is open at its end.

  datatype Open =
    | Nothing
    | InSingle(text: string)
    | InDouble(items: seq<Item>)
    | AfterBackslash
    | AfterBackslashIn(items: seq<Item>)

  datatype Reading = Reading(words: seq<Word>, gaps: seq<string>, gap: string, word: Word, open: Open)

  predicate ReadingFits(r: Reading) {
    && LineFits(r.words, r.gaps)
    && IsGap(r.gap) && (r.words != [] ==> r.gap != "")
    && (forall piece :: piece in r.word ==> PieceFits(piece))
    && match r.open
       case InSingle(text) => SINGLE !in text
       case InDouble(items) => PieceFits(Double(items))
       case AfterBackslashIn(items) => PieceFits(Double(items))
       case _ => true
  }

  function OpenText(open: Open): string {
    match open
    case Nothing => ""
    case InSingle(text) => [SINGLE] + text
    case InDouble(items) => [DOUBLE] + ItemsText(items)
    case AfterBackslash => [BACKSLASH]
    case AfterBackslashIn(items) => [DOUBLE] + ItemsText(items) + [BACKSLASH]
  }

  function OpenValue(open: Open): string {
    match open
    case InSingle(text) => text
    case InDouble(items) => ItemsValue(items)
    case AfterBackslashIn(items) => ItemsValue(items)
    case _ => ""
  }

  function ReadingText(r: Reading): string
    requires |r.gaps| == |r.words|
  {
    LineText(r.words, r.gaps) + r.gap + (WordText(r.word) + OpenText(r.open))
  }

  function StateOf(r: Reading): State {
    State(
      Values(r.words),
      WordValue(r.word) + OpenValue(r.open),
      if r.open.InSingle? then Some(SINGLE)
      else if r.open.InDouble? || r.open.AfterBackslashIn? then Some(DOUBLE)
      else None,
      r.open.AfterBackslash? || r.open.AfterBackslashIn?,
      r.word != [] || r.open != Nothing)
  }

  /** What one more character closes: a piece is complete. */
  function Closed(open: Open, c: char): Option<Piece> {
    match open
    case AfterBackslash => Some(Escaped(c))
    case AfterBackslashIn(_) => None
    case InSingle(text) => if c == SINGLE then Some(Single(text)) else None
    case InDouble(items) => if c == DOUBLE then Some(Double(items)) else None
    case Nothing => if c == BACKSLASH || c == SINGLE || c == DOUBLE || IsSpace(c) then None else Some(Bare(c))
  }

  /** What one more character adds to what is open. */
  function Opened(open: Open, c: char): Open
    requires Closed(open, c).None? && (open.Nothing? ==> !IsSpace(c))
  {
    match open
    case AfterBackslashIn(items) => InDouble(items + [Backslashed(c)])
    case InSingle(text) => InSingle(text + [c])
    case InDouble(items) => if c == BACKSLASH then AfterBackslashIn(items) else InDouble(items + [Plain(c)])
    case Nothing => if c == BACKSLASH then AfterBackslash else if c == SINGLE then InSingle("") else InDouble([])
  }

  /** The reading of one more character. */
  function Next(r: Reading, c: char): Reading {
    if Closed(r.open, c).Some? then r.(word := r.word + [Closed(r.open, c).value], open := Nothing)
    else if r.open != Nothing || !IsSpace(c) then r.(open := Opened(r.open, c))
    else if r.word == [] then r.(gap := r.gap + [c])
    else Reading(r.words + [r.word], r.gaps + [r.gap], [c], [], Nothing)
  }

  lemma ClosedText(open: Open, c: char, piece: Piece)
    requires Closed(open, c) == Some(piece)
    ensures OpenText(open) + [c] == PieceText(piece)
  {
  }

  lemma OpenedText(open: Open, c: char)
    requires Closed(open, c).None? && (open.Nothing? ==> !IsSpace(c))
    ensures OpenText(Opened(open, c)) == OpenText(open) + [c]
  {
    match open
    case AfterBackslashIn(items) =>
      ItemsSnoc(items, Backslashed(c));
      AfterQuote(ItemsText(items), c);
    case InSingle(text) =>
    case InDouble(items) =>
      ItemsSnoc(items, Plain(c));
      AfterQuote(ItemsText(items), c);
    case Nothing =>
  }

  lemma AfterQuote(t: string, c: char)
    ensures [DOUBLE] + (t + [BACKSLASH, c]) == [DOUBLE] + t + [BACKSLASH] + [c]
    ensures [DOUBLE] + (t + [c]) == [DOUBLE] + t + [c]
  {
  }

  /** What is open grows by `c`, unless `c` begins a quotation or an escape. */
  lemma OpenedValue(open: Open, c: char)
    requires Closed(open, c).None? && (open.Nothing? ==> !IsSpace(c))
    ensures OpenValue(Opened(open, c))
         == if open.InSingle? || open.AfterBackslashIn? || (open.InDouble? && c != BACKSLASH)
            then OpenValue(open) + [c]
            else OpenValue(open)
  {
    match open
    case AfterBackslashIn(items) => ItemsSnoc(items, Backslashed(c));
    case InSingle(text) =>
    case InDouble(items) => ItemsSnoc(items, Plain(c));
    case Nothing =>
  }

  lemma NextText(r: Reading, c: char)
    requires |r.gaps| == |r.words|
    ensures |Next(r, c).gaps| == |Next(r, c).words| && ReadingText(Next(r, c)) == ReadingText(r) + [c]
  {
    if Closed(r.open, c).Some? || r.open != Nothing || !IsSpace(c) {
      NextTextInWord(r, c);
    } else if r.word != [] {
      LineSnoc(r.words, r.gaps, r.word, r.gap);
    }
  }

  lemma NextTextInWord(r: Reading, c: char)
    requires |r.gaps| == |r.words| && (Closed(r.open, c).Some? || r.open != Nothing || !IsSpace(c))
    ensures ReadingText(Next(r, c)) == ReadingText(r) + [c]
  {
    var line, text, open := LineText(r.words, r.gaps) + r.gap, WordText(r.word), OpenText(r.open);
    LongerLine(line, text, open, c);
    if Closed(r.open, c).Some? {
      WordSnoc(r.word, Closed(r.open, c).value);
      ClosedText(r.open, c, Closed(r.open, c).value);
    } else {
      OpenedText(r.open, c);
    }
  }

  lemma LongerLine(line: string, text: string, open: string, c: char)
    ensures line + (text + open) + [c] == line + (text + (open + [c])) == line + ((text + (open + [c])) + "")
  {
  }

  lemma NextState(r: Reading, c: char)
    ensures StateOf(Next(r, c)) == Step(StateOf(r), c)
  {
    if Closed(r.open, c).Some? {
      WordSnoc(r.word, Closed(r.open, c).value);
    } else if r.open != Nothing || !IsSpace(c) {
      OpenedState(r, c);
    } else {
      assert (r.words + [r.word])[..|r.words|] == r.words && WordValue(r.word) + "" == WordValue(r.word);
    }
  }

  lemma OpenedState(r: Reading, c: char)
    requires Closed(r.open, c).None? && (r.open.Nothing? ==> !IsSpace(c))
    ensures StateOf(Next(r, c)) == Step(StateOf(r), c)
  {
    OpenedValue(r.open, c);
    ConcatAssoc(WordValue(r.word), OpenValue(r.open), [c]);
  }

  lemma NextFits(r: Reading, c: char)
    requires ReadingFits(r)
    ensures ReadingFits(Next(r, c))
  {
  }

  /** Every text has a reading, and the parser's state is what was read. */
  lemma {:induction false} ReadAll(input: string) returns (r: Reading)
    ensures ReadingFits(r) && ReadingText(r) == input && StateOf(r) == Run(INITIAL, input)
  {
    if input == "" {
      r := Reading([], [], "", [], Nothing);
    } else {
      var front, c := input[..|input| - 1], input[|input| - 1];
      assert front + [c] == input;
      var before := ReadAll(front);
      r := Next(before, c);
      NextFits(before, c);
      NextText(before, c);
      NextState(before, c);
    }
  }
}
