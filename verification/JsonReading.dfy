/**
 The JSON grammar is unambiguous: a text denotes at most one value, up to the order of members.
 The texts compared are parts `t[i..j]` and `t[i..k]` of one text, read from the same place.
 */
module JsonReading {
  import opened Basics
  import opened Texts
  import opened JsonTokens
  import opened JsonPrinter
  import opened JsonLiterals
  import opened JsonGrammar
  import opened JsonRoundTrip

  /** Equal up to the order of members, whose names differ on both sides. */
  ghost predicate Same(v: Json, w: Json)
    decreases v
  {
    match v
    case Arr(items) =>
      && w.Arr? && SameLength(items, w.items)
      && (forall i :: 0 <= i < |items| ==> Same(items[i], w.items[i]))
    case Obj(members) =>
      && w.Obj? && NamesDiffer(members) && NamesDiffer(w.members)
      && (forall i :: 0 <= i < |members| ==> HasName(w.members, members[i].name))
      && (forall j :: 0 <= j < |w.members| ==> HasName(members, w.members[j].name))
      && (forall i, j :: 0 <= i < |members| && 0 <= j < |w.members| && members[i].name == w.members[j].name ==>
            Same(members[i].value, w.members[j].value))
    case _ => w == v
  }

  predicate SameLength<T>(a: seq<T>, b: seq<T>) {
    |a| == |b|
  }

  /** Written one by one with the same names and the same values. */
  ghost predicate SameWritten(a: seq<Member>, b: seq<Member>) {
    |a| == |b| && forall i :: 0 <= i < |a| ==> a[i].name == b[i].name && Same(a[i].value, b[i].value)
  }

  lemma KeptIsNamed(written: seq<Member>, other: seq<Member>, members: seq<Member>, others: seq<Member>, i: nat)
    requires Kept(written, members) && Kept(other, others) && SameWritten(written, other) && i < |members|
    ensures HasName(others, members[i].name)
  {
    var p :| 0 <= p < |written| && written[p] == members[i] && LastOfName(written, p);
    assert other[p].name == members[i].name;
  }

  lemma KeptValueIsSame(written: seq<Member>, other: seq<Member>, member: Member, mate: Member)
    requires IsLastWritten(written, member) && IsLastWritten(other, mate) && SameWritten(written, other)
    requires member.name == mate.name
    ensures Same(member.value, mate.value)
  {
    var p :| 0 <= p < |written| && written[p] == member && LastOfName(written, p);
    var q :| 0 <= q < |other| && other[q] == mate && LastOfName(other, q);
    assert written[q].name == member.name && other[p].name == mate.name;
    assert p == q;
  }

  lemma SameSymmetric(a: seq<Member>, b: seq<Member>, others: seq<Member>, j: nat)
    requires |a| == |b| && (forall i :: 0 <= i < |a| ==> a[i].name == b[i].name)
    requires j < |others| && IsLastWritten(b, others[j])
    ensures exists p :: 0 <= p < |a| && a[p].name == others[j].name
  {
    var p :| 0 <= p < |b| && b[p] == others[j] && LastOfName(b, p);
    assert a[p].name == others[j].name;
  }

  lemma KeptAreSame(written: seq<Member>, other: seq<Member>, members: seq<Member>, others: seq<Member>)
    requires Kept(written, members) && Kept(other, others) && SameWritten(written, other)
    ensures Same(Obj(members), Obj(others))
  {
    forall i | 0 <= i < |members|
      ensures HasName(others, members[i].name)
    {
      KeptIsNamed(written, other, members, others, i);
    }
    forall j | 0 <= j < |others|
      ensures HasName(members, others[j].name)
    {
      SameSymmetric(written, other, others, j);
    }
    forall i, j | 0 <= i < |members| && 0 <= j < |others| && members[i].name == others[j].name
      ensures Same(members[i].value, others[j].value)
    {
      KeptValueIsSame(written, other, members[i], others[j]);
    }
  }

  /** What stands behind a value, a name or a list: nothing, a comma, a colon or a closing bracket. */
  predicate Stops(t: string, j: nat) {
    j >= |t| || t[j] == ',' || t[j] == ':' || t[j] == ']' || t[j] == '}'
  }

  /** The same, or white space in front of it. */
  predicate Breaks(t: string, j: nat) {
    Stops(t, j) || IsGap(t[j])
  }

  lemma InnerIs(t: string, i: nat, j: nat)
    requires i + 2 <= j <= |t|
    ensures t[i..j][1..|t[i..j]| - 1] == t[i + 1..j - 1] && t[i..j][0] == t[i] && t[i..j][|t[i..j]| - 1] == t[j - 1]
  {
    PartOfPart(t, i, j, 1, j - i - 1, i + 1, j - 1);
  }

  lemma NumbersAreOne(t: string, i: nat, j: nat, k: nat)
    requires i <= j <= k <= |t| && Breaks(t, j) && NumberChars(t[i..k])
    ensures j == k
  {
    if j < k {
      NumberCharAt(t, i, j, k);
    }
  }

  lemma NumberCharAt(t: string, i: nat, j: nat, k: nat)
    requires i <= j < k <= |t| && NumberChars(t[i..k])
    ensures IsNumberChar(t[j])
  {
    assert t[j] == t[i..k][j - i];
  }

  lemma StringsAreOne(t: string, i: nat, j: nat)
    requires i + 2 <= j <= |t| && t[j - 1] == '"' && Decoded(t[i + 1..j - 1]).Some?
    ensures j == i + 1 + Close(t[i + 1..])
  {
    DecodedCloses(t[i + 1..j - 1], t[j..]);
    assert t[i + 1..] == t[i + 1..j - 1] + ("\"" + t[j..]);
  }

  /** The first character of a value, which tells its kind. */
  predicate Begins(c: char, v: Json) {
    match v
    case Null => c == 'n'
    case Bool(b) => c == if b then 't' else 'f'
    case Num(_) => IsDigit(c) || c == '-'
    case Str(_) => c == '"'
    case Arr(_) => c == '['
    case Obj(_) => c == '{'
  }

  lemma BareBegins(t: string, v: Json)
    requires Bare(t, v)
    ensures t != "" && Begins(t[0], v)
  {
    if v.Num? {
      NumberIsToken(t);
    }
  }

  lemma BareNumber(t: string, digits: string)
    requires Bare(t, Num(digits))
    ensures t == digits && NumberChars(t)
  {
    NumberIsToken(t);
  }

  lemma KindIsOne(t: string, i: nat, j: nat, k: nat, v: Json, w: Json)
    requires i <= j <= |t| && i <= k <= |t| && Bare(t[i..j], v) && Bare(t[i..k], w)
    ensures i < j && i < k && Begins(t[i], v) && Begins(t[i], w)
  {
    BareBegins(t[i..j], v);
    BareBegins(t[i..k], w);
  }

  /** A value that begins at `i` and has a stop behind it ends in one place and is one value. */
  lemma {:induction false} BareIsOne(t: string, i: nat, j: nat, k: nat, v: Json, w: Json)
    requires i <= j <= |t| && i <= k <= |t| && Bare(t[i..j], v) && Bare(t[i..k], w) && Breaks(t, j) && Breaks(t, k)
    ensures j == k && Same(v, w)
    decreases j - i, 1
  {
    KindIsOne(t, i, j, k, v, w);
    match v
    case Null =>
    case Bool(_) =>
    case Num(digits) =>
      BareNumber(t[i..j], digits);
      BareNumber(t[i..k], w.digits);
      NumbersAreOne(t, i, if j < k then j else k, if j < k then k else j);
    case Str(s) =>
      InnerIs(t, i, j);
      InnerIs(t, i, k);
      StringsAreOne(t, i, j);
      StringsAreOne(t, i, k);
    case Arr(items) =>
      InnerIs(t, i, j);
      InnerIs(t, i, k);
      ItemsAreOne(t, i + 1, j - 1, k - 1, items, w.items);
    case Obj(members) => ObjectIsOne(t, i, j, k, members, w.members);
  }

  /** The members between the braces, as they are written. */
  lemma Written(t: string, i: nat, j: nat, members: seq<Member>) returns (written: seq<Member>)
    requires i <= j <= |t| && Bare(t[i..j], Obj(members))
    ensures i + 2 <= j && t[j - 1] == '}' && DenotesMembers(t[i + 1..j - 1], written) && Kept(written, members)
  {
    InnerIs(t, i, j);
    written :| DenotesMembers(t[i + 1..j - 1], written) && Kept(written, members);
  }

  lemma {:induction false} ObjectIsOne(t: string, i: nat, j: nat, k: nat, members: seq<Member>, others: seq<Member>)
    requires i <= j <= |t| && i <= k <= |t| && Bare(t[i..j], Obj(members)) && Bare(t[i..k], Obj(others))
    ensures j == k && Same(Obj(members), Obj(others))
    decreases j - i, 0
  {
    var written := Written(t, i, j, members);
    var other := Written(t, i, k, others);
    MembersAreOne(t, i + 1, j - 1, k - 1, written, other);
    KeptAreSame(written, other, members, others);
  }

  predicate Gaps(t: string, i: nat, j: nat) {
    forall x :: i <= x < j && x < |t| ==> IsGap(t[x])
  }

  lemma GapsOfPart(t: string, i: nat, j: nat)
    requires i <= j <= |t| && Blank(t[i..j])
    ensures Gaps(t, i, j)
  {
    forall x | i <= x < j
      ensures IsGap(t[x])
    {
      assert t[x] == t[i..j][x - i];
    }
  }

  lemma BoundsIn(u: string, v: Json) returns (p: nat, q: nat)
    requires Denotes(u, v)
    ensures p <= q <= |u| && Blank(u[..p]) && Blank(u[q..]) && Bare(u[p..q], v)
  {
    p, q :| 0 <= p <= q <= |u| && Blank(u[..p]) && Blank(u[q..]) && Bare(u[p..q], v);
  }

  /** Where the white space in front ends and where the one behind begins. */
  lemma Bounds(t: string, i: nat, j: nat, v: Json) returns (a: nat, b: nat)
    requires i <= j <= |t| && Denotes(t[i..j], v)
    ensures i <= a < b <= j && Bare(t[a..b], v) && Begins(t[a], v)
    ensures Gaps(t, i, a) && Gaps(t, b, j) && !IsGap(t[a])
  {
    var p, q := BoundsIn(t[i..j], v);
    a, b := i + p, i + q;
    PartOfPart(t, i, j, p, q, a, b);
    BareAt(t, a, b, v);
    GapsOfPart(t, i, a);
    GapsOfPart(t, b, j);
  }

  lemma BareAt(t: string, a: nat, b: nat, v: Json)
    requires a <= b <= |t| && Bare(t[a..b], v)
    ensures a < b && Begins(t[a], v) && !IsGap(t[a])
  {
    BareBegins(t[a..b], v);
  }

  /** A part of a part. */
  lemma PartOfPart(t: string, i: nat, j: nat, p: nat, q: nat, a: nat, b: nat)
    requires i <= j <= |t| && p <= q <= j - i && a == i + p && b == i + q
    ensures t[i..j][p..q] == t[a..b] && t[i..j][..p] == t[i..a] && t[i..j][q..] == t[b..j]
  {
    var part := t[i..j];
    forall x | 0 <= x < q - p
      ensures part[p..q][x] == t[a..b][x]
    {
      assert part[p + x] == t[a + x];
    }
    assert part[p..q] == t[a..b];
  }

  /** A part, taken apart at `m`. */
  lemma SplitPart(t: string, i: nat, j: nat, n: nat, m: nat)
    requires i <= m < j <= |t| && m == i + n
    ensures n < |t[i..j]| && t[i..j][n] == t[m] && t[i..j][..n] == t[i..m] && t[i..j][n + 1..] == t[m + 1..j]
  {
    PartOfPart(t, i, j, n, n + 1, m, m + 1);
  }

  lemma SolidIsOne(t: string, i: nat, a: nat, c: nat)
    requires i <= a < |t| && i <= c < |t| && Gaps(t, i, a) && Gaps(t, i, c) && !IsGap(t[a]) && !IsGap(t[c])
    ensures a == c
  {
  }

  lemma StopIsOne(t: string, b: nat, j: nat, k: nat)
    requires b <= j <= |t| && b <= k <= |t| && Gaps(t, b, j) && Gaps(t, b, k) && Stops(t, j) && Stops(t, k)
    ensures j == k
  {
  }

  lemma BreaksBefore(t: string, b: nat, j: nat)
    requires b <= j <= |t| && Gaps(t, b, j) && Stops(t, j)
    ensures Breaks(t, b)
  {
  }

  lemma {:induction false} DenotedIsOne(t: string, i: nat, j: nat, k: nat, v: Json, w: Json)
    requires i <= j <= |t| && i <= k <= |t| && Denotes(t[i..j], v) && Denotes(t[i..k], w) && Stops(t, j) && Stops(t, k)
    ensures j == k && Same(v, w)
    decreases j - i, 2
  {
    var a, b := Bounds(t, i, j, v);
    var c, d := Bounds(t, i, k, w);
    SolidIsOne(t, i, a, c);
    BreaksBefore(t, b, j);
    BreaksBefore(t, d, k);
    BareIsOne(t, a, b, d, v, w);
    StopIsOne(t, b, j, k);
  }

  /** Where the first element of a list ends: at the end of the list or at a comma. */
  lemma FirstItem(t: string, i: nat, j: nat, items: seq<Json>) returns (m: nat)
    requires i <= j < |t| && items != [] && DenotesItems(t[i..j], items) && t[j] == ']'
    ensures i < m <= j && Denotes(t[i..m], items[0])
    ensures if |items| == 1 then m == j else m < j && t[m] == ',' && DenotesItems(t[m + 1..j], items[1..])
  {
    if |items| == 1 {
      m := j;
    } else {
      var n := CommaOfItems(t[i..j], items);
      m := i + n;
      SplitPart(t, i, j, n, m);
    }
    var a, b := Bounds(t, i, m, items[0]);
  }

  lemma CommaOfItems(u: string, items: seq<Json>) returns (n: nat)
    requires |items| > 1 && DenotesItems(u, items)
    ensures n < |u| && u[n] == ',' && Denotes(u[..n], items[0]) && DenotesItems(u[n + 1..], items[1..])
  {
    n :| 0 <= n < |u| && u[n] == ',' && Denotes(u[..n], items[0]) && DenotesItems(u[n + 1..], items[1..]);
  }

  /** What follows white space is the bracket behind an empty list. */
  lemma BlankEndsAtBracket(t: string, i: nat, j: nat, a: nat)
    requires i <= j < |t| && Blank(t[i..j]) && !IsGap(t[j])
    requires i <= a < |t| && Gaps(t, i, a) && !IsGap(t[a])
    ensures a == j
  {
    GapsOfPart(t, i, j);
    SolidIsOne(t, i, a, j);
  }

  lemma EmptyItems(t: string, i: nat, j: nat, k: nat, others: seq<Json>)
    requires i <= j < |t| && i <= k < |t| && Blank(t[i..j]) && DenotesItems(t[i..k], others) && t[j] == ']'
    requires t[k] == ']'
    ensures j == k && others == []
  {
    if others == [] {
      GapsOfPart(t, i, k);
      BlankEndsAtBracket(t, i, j, k);
    } else {
      var m := FirstItem(t, i, k, others);
      var a, b := Bounds(t, i, m, others[0]);
      BlankEndsAtBracket(t, i, j, a);
      assert false;
    }
  }

  lemma {:induction false} ItemsAreOne(t: string, i: nat, j: nat, k: nat, items: seq<Json>, others: seq<Json>)
    requires i <= j < |t| && i <= k < |t| && DenotesItems(t[i..j], items) && DenotesItems(t[i..k], others)
    requires t[j] == ']' && t[k] == ']'
    ensures j == k && Same(Arr(items), Arr(others))
    decreases j - i, 3
  {
    if items == [] {
      EmptyItems(t, i, j, k, others);
    } else if others == [] {
      EmptyItems(t, i, k, j, items);
    } else {
      var m := FirstItem(t, i, j, items);
      var n := FirstItem(t, i, k, others);
      DenotedIsOne(t, i, m, n, items[0], others[0]);
      if |items| > 1 {
        ItemsAreOne(t, m + 1, j, k, items[1..], others[1..]);
        SameItems(items, others);
      }
    }
  }

  lemma SameItems(items: seq<Json>, others: seq<Json>)
    requires items != [] && others != [] && Same(items[0], others[0]) && Same(Arr(items[1..]), Arr(others[1..]))
    ensures Same(Arr(items), Arr(others))
  {
    forall i | 0 <= i < |items|
      ensures Same(items[i], others[i])
    {
      if i > 0 {
        assert items[i] == items[1..][i - 1] && others[i] == others[1..][i - 1];
      }
    }
  }

  lemma Parts(t: string, i: nat, j: nat, member: Member) returns (m: nat)
    requires i <= j <= |t| && DenotesMember(t[i..j], member)
    ensures i <= m < j && t[m] == ':' && Denotes(t[i..m], Str(member.name)) && Denotes(t[m + 1..j], member.value)
  {
    var n := Colon(t[i..j], member);
    m := i + n;
    SplitPart(t, i, j, n, m);
  }

  lemma Colon(u: string, member: Member) returns (n: nat)
    requires DenotesMember(u, member)
    ensures n < |u| && u[n] == ':' && Denotes(u[..n], Str(member.name)) && Denotes(u[n + 1..], member.value)
  {
    n :| 0 <= n < |u| && u[n] == ':' && Denotes(u[..n], Str(member.name)) && Denotes(u[n + 1..], member.value);
  }

  lemma {:induction false} MemberIsOne(t: string, i: nat, j: nat, k: nat, member: Member, other: Member)
    requires i <= j <= |t| && i <= k <= |t| && DenotesMember(t[i..j], member) && DenotesMember(t[i..k], other)
    requires Stops(t, j) && Stops(t, k)
    ensures j == k && member.name == other.name && Same(member.value, other.value)
    decreases j - i, 3
  {
    var m := Parts(t, i, j, member);
    var n := Parts(t, i, k, other);
    DenotedIsOne(t, i, m, n, Str(member.name), Str(other.name));
    DenotedIsOne(t, m + 1, j, k, member.value, other.value);
  }

  lemma FirstMember(t: string, i: nat, j: nat, members: seq<Member>) returns (m: nat)
    requires i <= j < |t| && members != [] && DenotesMembers(t[i..j], members) && t[j] == '}'
    ensures i < m <= j && DenotesMember(t[i..m], members[0])
    ensures GoesOn(t, m, j, members)
  {
    if |members| == 1 {
      m := j;
    } else {
      var n := CommaOfMembers(t[i..j], members);
      m := i + n;
      SplitPart(t, i, j, n, m);
    }
    var a := Parts(t, i, m, members[0]);
  }

  lemma CommaOfMembers(u: string, members: seq<Member>) returns (n: nat)
    requires |members| > 1 && DenotesMembers(u, members)
    ensures n < |u| && u[n] == ',' && DenotesMember(u[..n], members[0]) && DenotesMembers(u[n + 1..], members[1..])
  {
    n :| 0 <= n < |u| && u[n] == ',' && DenotesMember(u[..n], members[0]) && DenotesMembers(u[n + 1..], members[1..]);
  }

  lemma EmptyMembers(t: string, i: nat, j: nat, k: nat, others: seq<Member>)
    requires i <= j < |t| && i <= k < |t| && Blank(t[i..j]) && DenotesMembers(t[i..k], others) && t[j] == '}'
    requires t[k] == '}'
    ensures j == k && others == []
  {
    if others == [] {
      GapsOfPart(t, i, k);
      BlankEndsAtBracket(t, i, j, k);
    } else {
      var m := FirstMember(t, i, k, others);
      var n := Parts(t, i, m, others[0]);
      var a, b := Bounds(t, i, n, Str(others[0].name));
      BlankEndsAtBracket(t, i, j, a);
      assert false;
    }
  }

  /** Behind the first member, which ends at `m`, the list ends or goes on. */
  ghost predicate GoesOn(t: string, m: nat, j: nat, members: seq<Member>)
    requires members != [] && j < |t|
  {
    if |members| == 1 then m == j else m < j && t[m] == ',' && DenotesMembers(t[m + 1..j], members[1..])
  }

  lemma {:induction false} MembersBehind(t: string, m: nat, j: nat, k: nat, members: seq<Member>, others: seq<Member>)
    requires m <= j < |t| && m <= k < |t| && t[j] == '}' && t[k] == '}' && members != [] && others != []
    requires GoesOn(t, m, j, members) && GoesOn(t, m, k, others)
    ensures j == k && SameWritten(members[1..], others[1..])
    decreases j - m, 5
  {
    if |members| > 1 {
      MembersAreOne(t, m + 1, j, k, members[1..], others[1..]);
    }
  }

  lemma {:induction false} MembersAreOne(t: string, i: nat, j: nat, k: nat, members: seq<Member>, others: seq<Member>)
    requires i <= j < |t| && i <= k < |t| && DenotesMembers(t[i..j], members) && DenotesMembers(t[i..k], others)
    requires t[j] == '}' && t[k] == '}'
    ensures j == k && SameWritten(members, others)
    decreases j - i, 4
  {
    if members == [] {
      EmptyMembers(t, i, j, k, others);
    } else if others == [] {
      EmptyMembers(t, i, k, j, members);
    } else {
      var m := FirstMember(t, i, j, members);
      var n := FirstMember(t, i, k, others);
      MemberIsOne(t, i, m, n, members[0], others[0]);
      MembersBehind(t, m, j, k, members, others);
      SameMore(members, others);
    }
  }

  lemma SameMore(members: seq<Member>, others: seq<Member>)
    requires members != [] && others != [] && members[0].name == others[0].name
    requires Same(members[0].value, others[0].value)
    requires SameWritten(members[1..], others[1..])
    ensures SameWritten(members, others)
  {
    forall i | 0 <= i < |members|
      ensures members[i].name == others[i].name && Same(members[i].value, others[i].value)
    {
      if i > 0 {
        assert members[i] == members[1..][i - 1] && others[i] == others[1..][i - 1];
      }
    }
  }

  /** A text denotes at most one value. */
  lemma DenotesOneValue(t: string, v: Json, w: Json)
    requires Denotes(t, v) && Denotes(t, w)
    ensures Same(v, w)
  {
    assert t[0..|t|] == t;
    DenotedIsOne(t, 0, |t|, |t|, v, w);
  }

  // The order of members is free.

  predicate SameNames(a: seq<Member>, b: seq<Member>) {
    |a| == |b| && forall i :: 0 <= i < |a| ==> a[i].name == b[i].name
  }

  /** Written with `others` in place of the members that are kept. */
  function Rewritten(written: seq<Member>, others: seq<Member>): (r: seq<Member>)
    ensures SameNames(written, r)
  {
    seq(|written|, p requires 0 <= p < |written| => InPlace(written, others, p))
  }

  function InPlace(written: seq<Member>, others: seq<Member>, p: nat): (m: Member)
    requires p < |written|
    ensures m.name == written[p].name
  {
    if LastOfName(written, p) then Named(others, written[p]) else written[p]
  }

  function Named(members: seq<Member>, member: Member): (m: Member)
    ensures m.name == member.name
    ensures HasName(members, member.name) ==> m in members
  {
    if members == [] then member
    else if members[0].name == member.name then members[0]
    else
      assert HasName(members, member.name) ==> HasName(members[1..], member.name) by {
        if HasName(members, member.name) {
          var i :| 0 <= i < |members| && members[i].name == member.name;
          assert members[1..][i - 1] == members[i];
        }
      }
      Named(members[1..], member)
  }

  lemma KeptInPlace(written: seq<Member>, members: seq<Member>, others: seq<Member>, p: nat)
    requires Kept(written, members) && Same(Obj(members), Obj(others)) && p < |written| && LastOfName(written, p)
    ensures Named(others, written[p]) in others && Same(written[p].value, Named(others, written[p]).value)
  {
    var i :| 0 <= i < |members| && members[i].name == written[p].name;
    var q :| 0 <= q < |written| && written[q] == members[i] && LastOfName(written, q);
    assert q == p;
    assert HasName(others, written[p].name);
  }

  lemma OtherIsLast(written: seq<Member>, members: seq<Member>, others: seq<Member>, j: nat)
    requires Kept(written, members) && Same(Obj(members), Obj(others)) && j < |others|
    ensures IsLastWritten(Rewritten(written, others), others[j])
  {
    var i :| 0 <= i < |members| && members[i].name == others[j].name;
    var p :| 0 <= p < |written| && written[p] == members[i] && LastOfName(written, p);
    KeptInPlace(written, members, others, p);
    var k :| 0 <= k < |others| && others[k] == Named(others, written[p]);
    assert k == j;
    LastIsByName(written, Rewritten(written, others), p);
  }

  lemma LastIsByName(a: seq<Member>, b: seq<Member>, p: nat)
    requires SameNames(a, b) && p < |a| && LastOfName(a, p)
    ensures LastOfName(b, p)
  {
  }

  lemma OthersAreKept(written: seq<Member>, members: seq<Member>, others: seq<Member>)
    requires Kept(written, members) && Same(Obj(members), Obj(others))
    ensures Kept(Rewritten(written, others), others)
  {
    var r := Rewritten(written, others);
    forall j | 0 <= j < |others|
      ensures IsLastWritten(r, others[j])
    {
      OtherIsLast(written, members, others, j);
    }
    forall p | 0 <= p < |r|
      ensures HasName(others, r[p].name)
    {
      var i :| 0 <= i < |members| && members[i].name == written[p].name;
    }
  }

  ghost predicate Agree(member: Member, other: Member) {
    other.name == member.name && (other == member || Same(member.value, other.value))
  }

  lemma {:induction false} DenotedAlso(t: string, v: Json, w: Json)
    requires Denotes(t, v) && Same(v, w)
    ensures Denotes(t, w)
    decreases |t|, 2
  {
    var i, j :| 0 <= i <= j <= |t| && Blank(t[..i]) && Blank(t[j..]) && Bare(t[i..j], v);
    BareAlso(t[i..j], v, w);
  }

  lemma {:induction false} BareAlso(t: string, v: Json, w: Json)
    requires Bare(t, v) && Same(v, w)
    ensures Bare(t, w)
    decreases |t|, 1
  {
    match v
    case Arr(items) => ItemsAlso(t[1..|t| - 1], items, w.items);
    case Obj(members) =>
      var written :| DenotesMembers(t[1..|t| - 1], written) && Kept(written, members);
      OthersAreKept(written, members, w.members);
      forall p | 0 <= p < |written|
        ensures Agree(written[p], Rewritten(written, w.members)[p])
      {
        if LastOfName(written, p) { KeptInPlace(written, members, w.members, p); }
      }
      MembersAlso(t[1..|t| - 1], written, Rewritten(written, w.members));
    case _ =>
  }

  lemma {:induction false} ItemsAlso(t: string, items: seq<Json>, others: seq<Json>)
    requires DenotesItems(t, items) && |others| == |items| && forall i :: 0 <= i < |items| ==> Same(items[i], others[i])
    ensures DenotesItems(t, others)
    decreases |t|, 3
  {
    if |items| == 1 {
      DenotedAlso(t, items[0], others[0]);
    } else if |items| > 1 {
      var n := CommaOfItems(t, items);
      DenotedAlso(t[..n], items[0], others[0]);
      ItemsAlso(t[n + 1..], items[1..], others[1..]);
    }
  }

  lemma {:induction false} MembersAlso(t: string, members: seq<Member>, others: seq<Member>)
    requires DenotesMembers(t, members) && |others| == |members|
    requires forall i :: 0 <= i < |members| ==> Agree(members[i], others[i])
    ensures DenotesMembers(t, others)
    decreases |t|, 3
  {
    if |members| == 1 {
      MemberAlso(t, members[0], others[0]);
    } else if |members| > 1 {
      var n := CommaOfMembers(t, members);
      MemberAlso(t[..n], members[0], others[0]);
      MembersAlso(t[n + 1..], members[1..], others[1..]);
    }
  }

  lemma {:induction false} MemberAlso(t: string, member: Member, other: Member)
    requires DenotesMember(t, member) && Agree(member, other)
    ensures DenotesMember(t, other)
    decreases |t|, 2
  {
    var n := Colon(t, member);
    if other != member {
      DenotedAlso(t[n + 1..], member.value, other.value);
    }
  }

  /**
   Printing and reading: the printed form of a value denotes that value, in any order of its
   members, and no other.
   */
  lemma PrintedIsReadBack(v: Json, w: Json)
    requires Proper(v)
    ensures Denotes(Print(v, 0), v)
    ensures Denotes(Print(v, 0), w) <==> Same(v, w)
  {
    PrintedDenotesItself(v);
    if Denotes(Print(v, 0), w) {
      DenotesOneValue(Print(v, 0), v, w);
    }
    if Same(v, w) {
      DenotedAlso(Print(v, 0), v, w);
    }
  }
}
