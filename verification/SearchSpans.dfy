/** Marking the places where a literal search text stands in a log line. */
module SearchSpans {
  import opened Basics
  import opened Texts

  const MAX_SEARCH_SPANS := 64

  datatype MatchSpan = MatchSpan(start: nat, end: nat)

  predicate Matches(text: string, needle: string, i: nat) {
    At(Lowered(text), i, Lowered(needle))
  }

  function EndOf(spans: seq<MatchSpan>, i: nat): nat
    requires i <= |spans|
  {
    if i == 0 then 0 else spans[i - 1].end
  }

  /** Each span is the first match after the one before. */
  ghost predicate AreFirstMatches(text: string, needle: string, spans: seq<MatchSpan>) {
    forall i :: 0 <= i < |spans| ==> IsFirstMatch(text, needle, spans, i)
  }

  ghost predicate IsFirstMatch(text: string, needle: string, spans: seq<MatchSpan>, i: nat)
    requires i < |spans|
  {
    && EndOf(spans, i) <= spans[i].start && spans[i].end == spans[i].start + |needle|
    && Matches(text, needle, spans[i].start)
    && forall j :: EndOf(spans, i) <= j < spans[i].start ==> !Matches(text, needle, j)
  }

  lemma OneMoreMatch(text: string, needle: string, spans: seq<MatchSpan>, span: MatchSpan)
    requires AreFirstMatches(text, needle, spans) && EndOf(spans, |spans|) <= span.start
    requires span.end == span.start + |needle|
    requires Matches(text, needle, span.start)
    requires forall j :: EndOf(spans, |spans|) <= j < span.start ==> !Matches(text, needle, j)
    ensures AreFirstMatches(text, needle, spans + [span])
  {
    var more := spans + [span];
    forall i | 0 <= i < |more|
      ensures IsFirstMatch(text, needle, more, i)
    {
      if i < |spans| {
        assert IsFirstMatch(text, needle, spans, i);
      }
    }
  }

  method SpansForLiteral(text: string, needle: string) returns (spans: seq<MatchSpan>)
    requires needle != ""
    ensures |spans| <= 64 && AreFirstMatches(text, needle, spans)
    ensures |spans| < 64 ==> forall j :: j >= EndOf(spans, |spans|) ==> !Matches(text, needle, j)
  {
    var lower, target := Lowered(text), Lowered(needle);
    spans := [];
    var index := IndexOf(lower, target, 0);
    while index.Some? && |spans| < MAX_SEARCH_SPANS
      invariant |spans| <= MAX_SEARCH_SPANS && AreFirstMatches(text, needle, spans)
      invariant index == IndexOf(lower, target, EndOf(spans, |spans|))
      decreases MAX_SEARCH_SPANS - |spans|
    {
      var before := spans;
      spans := spans + [MatchSpan(index.value, index.value + |target|)];
      OneMoreMatch(text, needle, before, spans[|before|]);
      index := IndexOf(lower, target, index.value + |target|);
    }
  }

  // Showing them.

  datatype Part = Plain(text: string) | Hit(text: string)

  function Joined(parts: seq<Part>): string {
    if parts == [] then "" else Joined(parts[..|parts| - 1]) + parts[|parts| - 1].text
  }

  function Hits(parts: seq<Part>): seq<string> {
    if parts == [] then []
    else
      var last := parts[|parts| - 1];
      Hits(parts[..|parts| - 1]) + if last.Hit? then [last.text] else []
  }

  lemma PartsSnoc(parts: seq<Part>, part: Part)
    ensures Joined(parts + [part]) == Joined(parts) + part.text
    ensures Hits(parts + [part]) == Hits(parts) + if part.Hit? then [part.text] else []
  {
    assert (parts + [part])[..|parts|] == parts;
  }

  predicate Ascending(spans: seq<MatchSpan>, length: nat) {
    forall i :: 0 <= i < |spans| ==> EndOf(spans, i) <= spans[i].start <= spans[i].end <= length
  }

  function Cut(text: string, spans: seq<MatchSpan>): seq<string>
    requires forall i :: 0 <= i < |spans| ==> spans[i].start <= spans[i].end <= |text|
  {
    seq(|spans|, i requires 0 <= i < |spans| => text[spans[i].start..spans[i].end])
  }

  lemma CutNext(text: string, spans: seq<MatchSpan>, i: nat)
    requires i < |spans| && Ascending(spans, |text|)
    ensures Cut(text, spans)[..i + 1] == Cut(text, spans)[..i] + [text[spans[i].start..spans[i].end]]
    ensures text[..spans[i].end] == text[..spans[i].start] + text[spans[i].start..spans[i].end]
    ensures text[..spans[i].start] == text[..EndOf(spans, i)] + text[EndOf(spans, i)..spans[i].start]
  {
  }

  /** The parts are the whole text, and the marked ones are the spans. */
  method LogSearchText(text: string, spans: seq<MatchSpan>) returns (parts: seq<Part>)
    requires Ascending(spans, |text|)
    ensures Joined(parts) == text && Hits(parts) == Cut(text, spans)
    ensures spans != [] ==> forall part :: part in parts && part.Plain? ==> part.text != ""
  {
    if spans == [] {
      PartsSnoc([], Plain(text));
      assert [] + [Plain(text)] == [Plain(text)] && "" + text == text;
      return [Plain(text)];
    }
    parts := [];
    var cursor := 0;
    for index := 0 to |spans|
      invariant cursor == EndOf(spans, index) <= |text|
      invariant Joined(parts) == text[..cursor] && Hits(parts) == Cut(text, spans)[..index]
      invariant forall part :: part in parts && part.Plain? ==> part.text != ""
    {
      var span := spans[index];
      CutNext(text, spans, index);
      if span.start > cursor {
        PartsSnoc(parts, Plain(text[cursor..span.start]));
        parts := parts + [Plain(text[cursor..span.start])];
      }
      assert Joined(parts) == text[..span.start] && Hits(parts) == Cut(text, spans)[..index];
      PartsSnoc(parts, Hit(text[span.start..span.end]));
      parts := parts + [Hit(text[span.start..span.end])];
      cursor := span.end;
    }
    if cursor < |text| {
      PartsSnoc(parts, Plain(text[cursor..]));
      parts := parts + [Plain(text[cursor..])];
    }
  }

  lemma MatchesAreAscending(text: string, needle: string, spans: seq<MatchSpan>)
    requires AreFirstMatches(text, needle, spans)
    ensures Ascending(spans, |text|)
  {
    forall i | 0 <= i < |spans|
      ensures EndOf(spans, i) <= spans[i].start <= spans[i].end <= |text|
    {
      assert IsFirstMatch(text, needle, spans, i);
    }
  }
}
