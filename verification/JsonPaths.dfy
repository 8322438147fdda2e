/** The identity of a tree row: its path, printed as a JSON array. Distinct paths have distinct ids. */
module JsonPaths {
  import opened Basics
  import opened Texts
  import opened JsonTokens
  import opened JsonPrinter
  import opened JsonLiterals

  datatype Segment = Index(i: nat) | Name(key: string)

  type Path = seq<Segment>

  function Decimal(n: nat): (d: string)
    ensures d != "" && forall i :: 0 <= i < |d| ==> IsDigit(d[i])
  {
    if n < 10 then ["0123456789"[n]] else Decimal(n / 10) + ["0123456789"[n % 10]]
  }

  function PrintSegment(segment: Segment): string {
    match segment
    case Index(i) => Decimal(i)
    case Name(key) => Quote(key)
  }

  function PrintSegments(path: Path): string {
    if path == [] then "]"
    else PrintSegment(path[0]) + ((if |path| == 1 then "" else ",") + PrintSegments(path[1..]))
  }

  /** jsonNodeId: JSON.stringify of the path. */
  function Id(path: Path): string {
    "[" + PrintSegments(path)
  }

  function Value(digits: string): nat {
    if digits == "" then 0
    else 10 * Value(digits[..|digits| - 1]) + Digit(digits[|digits| - 1])
  }

  function Digit(c: char): nat {
    if IsDigit(c) then c as int - '0' as int else 0
  }

  lemma {:induction false} ValueOfDecimal(n: nat)
    ensures Value(Decimal(n)) == n
  {
    if n >= 10 {
      ValueOfDecimal(n / 10);
      assert Decimal(n)[..|Decimal(n)| - 1] == Decimal(n / 10);
    } else {
      assert Decimal(n)[..0] == "";
    }
    DigitOf(n % 10);
  }

  lemma DigitOf(d: nat)
    requires d < 10
    ensures Digit("0123456789"[d]) == d
  {
  }

  /** A text after a printed segment starts with a comma or a bracket. */
  predicate Delimited(rest: string) {
    rest != "" && (rest[0] == ',' || rest[0] == ']')
  }

  lemma DecimalsDiffer(m: nat, x: string, n: nat, y: string)
    requires Delimited(x) && Delimited(y) && Decimal(m) + x == Decimal(n) + y
    ensures m == n && x == y
  {
    var t := Decimal(m) + x;
    SpanUnique(t, IsDigit, |Decimal(m)|);
    SpanUnique(t, IsDigit, |Decimal(n)|);
    assert t[..|Decimal(m)|] == Decimal(m) && t[..|Decimal(n)|] == Decimal(n);
    assert t[|Decimal(m)|..] == x && t[|Decimal(n)|..] == y;
    ValueOfDecimal(m);
    ValueOfDecimal(n);
  }

  /** Reading what was written between quotes gives the string back. */
  lemma EscapedDiffer(a: string, b: string)
    requires Escaped(a) == Escaped(b)
    ensures a == b
  {
    EscapedDecodes(a);
    EscapedDecodes(b);
  }

  lemma QuotesDiffer(a: string, x: string, b: string, y: string)
    requires Quote(a) + x == Quote(b) + y
    ensures a == b && x == y
  {
    var t := Quote(a) + x;
    QuotedTail(Escaped(a), x);
    QuotedTail(Escaped(b), y);
    CloseOfEscaped(a, x);
    CloseOfEscaped(b, y);
    assert t[1..][..|Escaped(a)|] == Escaped(a);
    assert t[1..][..|Escaped(b)|] == Escaped(b);
    EscapedDiffer(a, b);
  }

  lemma SegmentsDiffer(p: Segment, x: string, q: Segment, y: string)
    requires Delimited(x) && Delimited(y) && PrintSegment(p) + x == PrintSegment(q) + y
    ensures p == q && x == y
  {
    var t := PrintSegment(p) + x;
    assert t[0] == PrintSegment(p)[0] == PrintSegment(q)[0];
    match p
    case Index(i) =>
      assert q.Index?;
      DecimalsDiffer(i, x, q.i, y);
    case Name(key) =>
      assert q.Name?;
      QuotesDiffer(key, x, q.key, y);
  }

  lemma SameFirst(p: Path, q: Path)
    requires p != [] && q != [] && PrintSegments(p) == PrintSegments(q)
    ensures p[0] == q[0] && (|p| == 1 <==> |q| == 1) && PrintSegments(p[1..]) == PrintSegments(q[1..])
  {
    FirstThenRest(p);
    FirstThenRest(q);
    SegmentsDiffer(p[0], AfterFirst(p), q[0], AfterFirst(q));
    if |p| == 1 {
      assert p[1..] == [];
    }
    if |q| == 1 {
      assert q[1..] == [];
    }
  }

  lemma Rejoined(p: Path, q: Path)
    requires p != [] && q != [] && p[0] == q[0] && p[1..] == q[1..]
    ensures p == q
  {
    assert p == [p[0]] + p[1..] && q == [q[0]] + q[1..];
  }

  lemma OnePathIsEmpty(p: Path, q: Path)
    requires PrintSegments(p) == PrintSegments(q) && (p == [] || q == [])
    ensures p == q
  {
    if p != [] {
      SegmentStart(p[0]);
    }
    if q != [] {
      SegmentStart(q[0]);
    }
  }

  lemma SegmentStart(segment: Segment)
    ensures PrintSegment(segment) != "" && PrintSegment(segment)[0] != ']'
  {
  }

  lemma {:induction false} PrintedPathsDiffer(p: Path, q: Path)
    requires PrintSegments(p) == PrintSegments(q)
    ensures p == q
  {
    if p == [] || q == [] {
      OnePathIsEmpty(p, q);
    } else {
      SameFirst(p, q);
      PrintedPathsDiffer(p[1..], q[1..]);
      Rejoined(p, q);
    }
  }

  function AfterFirst(p: Path): string
    requires p != []
  {
    (if |p| == 1 then "" else ",") + PrintSegments(p[1..])
  }

  lemma FirstThenRest(p: Path)
    requires p != []
    ensures PrintSegments(p) == PrintSegment(p[0]) + AfterFirst(p) && Delimited(AfterFirst(p))
    ensures if |p| == 1 then AfterFirst(p) == "]"
            else AfterFirst(p)[0] == ',' && AfterFirst(p)[1..] == PrintSegments(p[1..])
  {
  }

  lemma IdsDiffer(p: Path, q: Path)
    requires Id(p) == Id(q)
    ensures p == q
  {
    assert Id(p)[1..] == PrintSegments(p) && Id(q)[1..] == PrintSegments(q);
    PrintedPathsDiffer(p, q);
  }

  // The id as JSON.

  function AsJson(segment: Segment): Json {
    match segment
    case Index(i) => Num(Decimal(i))
    case Name(key) => Str(key)
  }

  function AsItems(path: Path): (items: seq<Json>)
    ensures |items| == |path| && forall i :: 0 <= i < |path| ==> items[i] == AsJson(path[i])
  {
    seq(|path|, i requires 0 <= i < |path| => AsJson(path[i]))
  }

  /** An index is written as its digits, without a zero in front. */
  lemma {:induction false} DecimalExactly(n: nat)
    ensures IsJsonNumber(Decimal(n)) && Value(Decimal(n)) == n
  {
    var d := Decimal(n);
    SpanUnique(d, IsDigit, |d|);
    assert d[|d|..] == "";
    FirstDigit(n);
    ValueOfDecimal(n);
  }

  lemma {:induction false} FirstDigit(n: nat)
    ensures Decimal(n)[0] == '0' ==> n == 0
  {
    if n >= 10 {
      FirstDigit(n / 10);
    }
  }

  lemma {:induction false} JoinedConcat(a: seq<Token>, b: seq<Token>)
    ensures Joined(a + b) == Joined(a) + Joined(b)
  {
    if a == [] {
      assert a + b == b;
    } else {
      JoinedConcat(a[1..], b);
      assert (a + b)[1..] == a[1..] + b;
      ConcatAssoc(a[0].text, Joined(a[1..]), Joined(b));
    }
  }

  lemma JoinedOne(token: Token)
    ensures Joined([token]) == token.text
  {
    assert [token][1..] == [];
  }

  lemma {:induction false} SegmentsJoined(path: Path)
    ensures PrintSegments(path) == Joined(ItemTokens(AsItems(path))) + "]"
  {
    if path != [] {
      var items, first := AsItems(path), Tokens(AsJson(path[0]));
      assert items[1..] == AsItems(path[1..]);
      JoinedOne(first[0]);
      assert first == [first[0]] && first[0].text == PrintSegment(path[0]);
      SegmentsJoined(path[1..]);
      if |path| > 1 {
        var comma, others := [Token(Punct, ",")], ItemTokens(items[1..]);
        JoinedOne(comma[0]);
        JoinedConcat(comma, others);
        JoinedConcat(first, comma + others);
        ConcatAssoc(PrintSegment(path[0]), "," + Joined(others), "]");
        ConcatAssoc(",", Joined(others), "]");
      }
    }
  }

  /** A node id is the JSON array of the path in its compact form: its tokens with nothing between. */
  lemma IdIsCompactJson(path: Path)
    ensures Id(path) == Joined(Tokens(Arr(AsItems(path))))
  {
    var open, close, inner := [Token(Punct, "[")], [Token(Punct, "]")], ItemTokens(AsItems(path));
    SegmentsJoined(path);
    JoinedOne(open[0]);
    JoinedOne(close[0]);
    JoinedConcat(open, inner);
    JoinedConcat(open + inner, close);
    ConcatAssoc("[", Joined(inner), "]");
  }
}
