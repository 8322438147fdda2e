/** The printed form of a value is a text of the grammar that denotes the value. */
module JsonRoundTrip {
  import opened Basics
  import opened Texts
  import opened JsonTokens
  import opened JsonPrinter
  import opened JsonLiterals
  import opened JsonGrammar

  /** Numbers are written by the grammar, and in every object the names of the members differ. */
  predicate Proper(v: Json)
    decreases v
  {
    match v
    case Num(digits) => IsJsonNumber(digits)
    case Arr(items) => forall i :: 0 <= i < |items| ==> Proper(items[i])
    case Obj(members) =>
      && NamesDiffer(members)
      && (forall i :: 0 <= i < |members| ==> Proper(members[i].value))
    case _ => true
  }

  lemma DenotedWithin(before: string, t: string, after: string, v: Json)
    requires Blank(before) && Blank(after) && Bare(t, v)
    ensures Denotes(before + t + after, v)
  {
    var u, i, j := before + t + after, |before|, |before + t|;
    assert u[..i] == before && u[j..] == after && u[i..j] == t;
  }

  lemma QuoteDenotes(s: string)
    ensures Bare(Quote(s), Str(s))
  {
    EscapedDecodes(s);
    Bracketed('"', Escaped(s), "", '"');
    assert Escaped(s) + "" == Escaped(s) && "" + ['"'] == "\"";
  }

  lemma LineIsBlank(n: nat)
    ensures Blank("\n" + Pad(n))
  {
    if n > 0 {
      LineIsBlank(n - 1);
      forall i | 0 <= i < |"\n" + Pad(n)|
        ensures IsGap(("\n" + Pad(n))[i])
      {
        if i > 1 { assert ("\n" + Pad(n))[i] == ("\n" + Pad(n - 1))[i - 1]; }
      }
    }
  }

  lemma {:induction false} PrintIsBare(v: Json, indent: nat)
    requires Proper(v)
    ensures Bare(Print(v, indent), v)
    decreases v, 0
  {
    match v
    case Null =>
    case Bool(_) =>
    case Num(_) =>
    case Str(s) => QuoteDenotes(s);
    case Arr(items) => PrintedArray(items, indent);
    case Obj(members) => PrintedObject(members, indent);
  }

  lemma {:induction false} PrintedArray(items: seq<Json>, indent: nat)
    requires forall i :: 0 <= i < |items| ==> Proper(items[i])
    ensures Bare(Print(Arr(items), indent), Arr(items))
    decreases items, 2
  {
    if items == [] {
      ArrayIsBare("[]", "", items);
    } else {
      var inner, line := PrintItems(items, indent + 2), "\n" + Pad(indent);
      LineIsBlank(indent);
      ItemsDenoted(items, indent + 2, line);
      Bracketed('[', inner, line, ']');
      var t := "[" + inner + (line + "]");
      ArrayIsBare(t, inner + line, items);
      assert Print(Arr(items), indent) == t;
    }
  }

  lemma {:induction false} PrintedObject(members: seq<Member>, indent: nat)
    requires NamesDiffer(members)
    requires forall i :: 0 <= i < |members| ==> Proper(members[i].value)
    ensures Bare(Print(Obj(members), indent), Obj(members))
    decreases members, 2
  {
    if members == [] {
      ObjectIsBare("{}", "", members);
    } else {
      var inner, line := PrintMembers(members, indent + 2), "\n" + Pad(indent);
      LineIsBlank(indent);
      MembersDenoted(members, indent + 2, line);
      InBraces(Print(Obj(members), indent), inner, line, members);
    }
  }

  lemma InBraces(t: string, inner: string, line: string, members: seq<Member>)
    requires t == "{" + inner + (line + "}") && DenotesMembers(inner + line, members) && NamesDiffer(members)
    ensures Bare(t, Obj(members))
  {
    Bracketed('{', inner, line, '}');
    ObjectIsBare(t, inner + line, members);
  }

  lemma ArrayIsBare(t: string, inner: string, items: seq<Json>)
    requires |t| >= 2 && t[0] == '[' && t[|t| - 1] == ']' && t[1..|t| - 1] == inner && DenotesItems(inner, items)
    ensures Bare(t, Arr(items))
  {
  }

  lemma ObjectIsBare(t: string, inner: string, members: seq<Member>)
    requires |t| >= 2 && t[0] == '{' && t[|t| - 1] == '}' && t[1..|t| - 1] == inner && DenotesMembers(inner, members)
    requires NamesDiffer(members)
    ensures Bare(t, Obj(members))
  {
    forall i | 0 <= i < |members|
      ensures IsLastWritten(members, members[i]) && HasName(members, members[i].name)
    {
      assert LastOfName(members, i);
    }
    assert Kept(members, members);
  }

  lemma Bracketed(open: char, inner: string, line: string, close: char)
    ensures var t := [open] + inner + (line + [close]);
            |t| >= 2 && t[0] == open && t[|t| - 1] == close && t[1..|t| - 1] == inner + line
  {
  }

  lemma {:induction false} ItemsDenoted(items: seq<Json>, indent: nat, tail: string)
    requires items != [] && Blank(tail) && forall i :: 0 <= i < |items| ==> Proper(items[i])
    ensures DenotesItems(PrintItems(items, indent) + tail, items)
    decreases items, 1
  {
    var line, first := "\n" + Pad(indent), Print(items[0], indent);
    LineIsBlank(indent);
    PrintIsBare(items[0], indent);
    if |items| == 1 {
      DenotedWithin(line, first, tail, items[0]);
    } else {
      ItemsDenoted(items[1..], indent, tail);
      DenotedWithin(line, first, "", items[0]);
      AtComma(line + first, PrintItems(items[1..], indent), tail);
      assert line + first + "" == line + first;
    }
  }

  lemma AtComma(one: string, others: string, tail: string)
    ensures var t := one + ("," + others) + tail;
            |one| < |t| && t[|one|] == ',' && t[..|one|] == one && t[|one| + 1..] == others + tail
  {
  }

  lemma {:induction false} MembersDenoted(members: seq<Member>, indent: nat, tail: string)
    requires members != [] && Blank(tail)
    requires forall i :: 0 <= i < |members| ==> Proper(members[i].value)
    ensures DenotesMembers(PrintMembers(members, indent) + tail, members)
    decreases members, 1
  {
    var line, first := "\n" + Pad(indent), Print(members[0].value, indent);
    var one := line + Quote(members[0].name) + ": " + first;
    LineIsBlank(indent);
    PrintIsBare(members[0].value, indent);
    if |members| == 1 {
      MemberDenoted(line, members[0], first, tail);
    } else {
      MembersDenoted(members[1..], indent, tail);
      MemberDenoted(line, members[0], first, "");
      AtComma(one, PrintMembers(members[1..], indent), tail);
      assert one + "" == one;
    }
  }

  lemma MemberDenoted(line: string, member: Member, value: string, tail: string)
    requires Blank(line) && Blank(tail) && Bare(value, member.value)
    ensures DenotesMember(line + Quote(member.name) + ": " + value + tail, member)
  {
    var q := Quote(member.name);
    var left, right := line + q, " " + value + tail;
    QuotedNameDenotes(line, member.name);
    DenotedWithin(" ", value, tail, member.value);
    AtColon(line, q, value, tail, left, right);
    MemberAt(line + q + ": " + value + tail, |left|, member, left, right);
  }

  lemma QuotedNameDenotes(line: string, name: string)
    requires Blank(line)
    ensures Denotes(line + Quote(name), Str(name))
  {
    QuoteDenotes(name);
    DenotedWithin(line, Quote(name), "", Str(name));
    assert line + Quote(name) + "" == line + Quote(name);
  }

  lemma AtColon(line: string, q: string, value: string, tail: string, left: string, right: string)
    requires left == line + q && right == " " + value + tail
    ensures var t := line + q + ": " + value + tail;
            |left| < |t| && t[|left|] == ':' && t[..|left|] == left && t[|left| + 1..] == right
  {
    var t := line + q + ": " + value + tail;
    assert ": " + value + tail == ":" + right;
    assert t == left + (":" + right);
  }

  lemma MemberAt(t: string, i: nat, member: Member, left: string, right: string)
    requires i < |t| && t[i] == ':' && t[..i] == left && t[i + 1..] == right
    requires Denotes(left, Str(member.name)) && Denotes(right, member.value)
    ensures DenotesMember(t, member)
  {
  }

  /** Printing and reading: what is printed denotes the value. */
  lemma PrintedDenotesItself(v: Json)
    requires Proper(v)
    ensures Denotes(Print(v, 0), v)
  {
    PrintIsBare(v, 0);
    DenotedWithin("", Print(v, 0), "", v);
    assert "" + Print(v, 0) + "" == Print(v, 0);
  }
}
