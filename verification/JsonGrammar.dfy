/**
 The JSON grammar as a relation between texts and values (RFC 8259, sections 2 to 7).
 A value weighs no more than a text that denotes it, however the text is spaced and escaped.
 */
module JsonGrammar {
  import opened Basics
  import opened Texts
  import opened JsonTokens
  import opened JsonPrinter
  import opened JsonLiterals

  /** A character each for what a string holds, and one more for every value. */
  function Weight(v: Json): (w: nat)
    ensures w > 0
    decreases v, 0
  {
    match v
    case Str(s) => |s| + 1
    case Arr(items) => 1 + WeightOfItems(items)
    case Obj(members) => 1 + WeightOfMembers(members)
    case _ => 1
  }

  function WeightOfItems(items: seq<Json>): nat
    decreases items, 1
  {
    if items == [] then 0 else Weight(items[0]) + WeightOfItems(items[1..])
  }

  function WeightOfMembers(members: seq<Member>): nat
    decreases members, 1
  {
    if members == [] then 0 else Weight(members[0].value) + WeightOfMembers(members[1..])
  }

  /** White space between tokens, which is less than the class \s. */
  predicate IsGap(c: char) {
    c == ' ' || c == '\t' || c == '\n' || c == '\r'
  }

  predicate Blank(t: string) {
    forall i :: 0 <= i < |t| ==> IsGap(t[i])
  }

  /** White space, a value, white space. */
  ghost predicate Denotes(t: string, v: Json)
    decreases |t|, 2
  {
    exists i, j :: 0 <= i <= j <= |t| && Blank(t[..i]) && Blank(t[j..]) && Bare(t[i..j], v)
  }

  ghost predicate Bare(t: string, v: Json)
    decreases |t|, 1
  {
    match v
    case Null => t == "null"
    case Bool(b) => t == if b then "true" else "false"
    // A number is the text that writes it.
    case Num(digits) => t == digits && IsJsonNumber(t)
    case Str(s) => |t| >= 2 && t[0] == '"' == t[|t| - 1] && Decoded(t[1..|t| - 1]) == Some(s)
    case Arr(items) => |t| >= 2 && t[0] == '[' && t[|t| - 1] == ']' && DenotesItems(t[1..|t| - 1], items)
    // Of members with one name the last is kept.
    case Obj(members) =>
      |t| >= 2 && t[0] == '{' && t[|t| - 1] == '}'
      && exists written :: DenotesMembers(t[1..|t| - 1], written) && Kept(written, members)
  }

  ghost predicate DenotesItems(t: string, items: seq<Json>)
    decreases |t|, 3
  {
    if items == [] then Blank(t)
    else if |items| == 1 then Denotes(t, items[0])
    else exists i :: 0 <= i < |t| && t[i] == ',' && Denotes(t[..i], items[0]) && DenotesItems(t[i + 1..], items[1..])
  }

  ghost predicate DenotesMembers(t: string, members: seq<Member>)
    decreases |t|, 3
  {
    if members == [] then Blank(t)
    else if |members| == 1 then DenotesMember(t, members[0])
    else exists i :: 0 <= i < |t| && t[i] == ',' && DenotesMember(t[..i], members[0]) &&
           DenotesMembers(t[i + 1..], members[1..])
  }

  ghost predicate DenotesMember(t: string, member: Member)
    decreases |t|, 2
  {
    exists i :: 0 <= i < |t| && t[i] == ':' && Denotes(t[..i], Str(member.name)) && Denotes(t[i + 1..], member.value)
  }

  predicate NamesDiffer(members: seq<Member>) {
    forall i, j :: 0 <= i < j < |members| ==> members[i].name != members[j].name
  }

  predicate HasName(members: seq<Member>, name: string) {
    exists i :: 0 <= i < |members| && members[i].name == name
  }

  /** Behind place `p` its name is not written again. */
  predicate LastOfName(written: seq<Member>, p: nat)
    requires p < |written|
  {
    forall q :: p < q < |written| ==> written[q].name != written[p].name
  }

  predicate IsLastWritten(written: seq<Member>, member: Member) {
    exists p :: 0 <= p < |written| && written[p] == member && LastOfName(written, p)
  }

  /** Every name that was written, once, with the value it was written with last. */
  ghost predicate Kept(written: seq<Member>, members: seq<Member>) {
    && NamesDiffer(members)
    && (forall i :: 0 <= i < |members| ==> IsLastWritten(written, members[i]))
    && (forall p :: 0 <= p < |written| ==> HasName(members, written[p].name))
  }

  /** Equal but for the spelling of numbers, which the parser rounds. */
  ghost predicate Respelled(v: Json, w: Json)
    decreases v
  {
    match v
    case Num(_) => w.Num?
    case Arr(items) =>
      && w.Arr? && |w.items| == |items|
      && (forall i :: 0 <= i < |items| ==> Respelled(items[i], w.items[i]))
    case Obj(members) =>
      && w.Obj? && |w.members| == |members|
      && (forall i :: 0 <= i < |members| ==>
            members[i].name == w.members[i].name && Respelled(members[i].value, w.members[i].value))
    case _ => w == v
  }

  lemma {:induction false} RespelledWeighsSame(v: Json, w: Json)
    requires Respelled(v, w)
    ensures Weight(w) == Weight(v)
    decreases v, 0
  {
    match v
    case Arr(items) => RespelledItemsWeighSame(items, w.items);
    case Obj(members) => RespelledMembersWeighSame(members, w.members);
    case _ =>
  }

  lemma {:induction false} RespelledItemsWeighSame(items: seq<Json>, others: seq<Json>)
    requires |others| == |items| && forall i :: 0 <= i < |items| ==> Respelled(items[i], others[i])
    ensures WeightOfItems(others) == WeightOfItems(items)
    decreases items, 1
  {
    if items != [] {
      RespelledWeighsSame(items[0], others[0]);
      RespelledItemsWeighSame(items[1..], others[1..]);
    }
  }

  lemma {:induction false} RespelledMembersWeighSame(members: seq<Member>, others: seq<Member>)
    requires |others| == |members| && forall i :: 0 <= i < |members| ==> Respelled(members[i].value, others[i].value)
    ensures WeightOfMembers(others) == WeightOfMembers(members)
    decreases members, 1
  {
    if members != [] {
      RespelledWeighsSame(members[0].value, others[0].value);
      RespelledMembersWeighSame(members[1..], others[1..]);
    }
  }

  lemma {:induction false} WeightOfRest(members: seq<Member>, at: nat)
    requires at < |members|
    ensures WeightOfMembers(members) == Weight(members[at].value) + WeightOfMembers(members[..at] + members[at + 1..])
  {
    var rest := members[..at] + members[at + 1..];
    if at == 0 {
      assert rest == members[1..];
    } else {
      WeightOfRest(members[1..], at - 1);
      assert rest[0] == members[0];
      assert rest[1..] == members[1..][..at - 1] + members[1..][at..];
    }
  }

  /** Distinct members, each of them written. */
  lemma {:induction false} WrittenWeighsMore(written: seq<Member>, members: seq<Member>)
    requires NamesDiffer(members) && forall i :: 0 <= i < |members| ==> members[i] in written
    ensures WeightOfMembers(members) <= WeightOfMembers(written)
  {
    if members != [] {
      var at :| 0 <= at < |written| && written[at] == members[0];
      var rest := written[..at] + written[at + 1..];
      WeightOfRest(written, at);
      forall i | 0 <= i < |members[1..]|
        ensures members[1..][i] in rest
      {
        var j :| 0 <= j < |written| && written[j] == members[i + 1];
        assert j != at;
        assert rest[if j < at then j else j - 1] == written[j];
      }
      WrittenWeighsMore(rest, members[1..]);
    }
  }

  lemma {:induction false} WeighsNoMore(t: string, v: Json)
    requires Denotes(t, v)
    ensures Weight(v) <= |t|
    decreases |t|, 2
  {
    var i, j :| 0 <= i <= j <= |t| && Blank(t[..i]) && Blank(t[j..]) && Bare(t[i..j], v);
    BareWeighsNoMore(t[i..j], v);
  }

  lemma {:induction false} BareWeighsNoMore(t: string, v: Json)
    requires Bare(t, v)
    ensures Weight(v) <= |t|
    decreases |t|, 1
  {
    match v
    case Arr(items) => ItemsWeighNoMore(t[1..|t| - 1], items);
    case Obj(members) =>
      var written :| DenotesMembers(t[1..|t| - 1], written) && Kept(written, members);
      MembersWeighNoMore(t[1..|t| - 1], written);
      WrittenWeighsMore(written, members);
    case Str(_) => DecodedIsShorter(t[1..|t| - 1]);
    case _ =>
  }

  lemma {:induction false} ItemsWeighNoMore(t: string, items: seq<Json>)
    requires DenotesItems(t, items)
    ensures WeightOfItems(items) <= |t|
    decreases |t|, 3
  {
    if |items| == 1 {
      WeighsNoMore(t, items[0]);
    } else if |items| > 1 {
      var i :| 0 <= i < |t| && t[i] == ',' && Denotes(t[..i], items[0]) && DenotesItems(t[i + 1..], items[1..]);
      WeighsNoMore(t[..i], items[0]);
      ItemsWeighNoMore(t[i + 1..], items[1..]);
    }
  }

  lemma {:induction false} MembersWeighNoMore(t: string, members: seq<Member>)
    requires DenotesMembers(t, members)
    ensures WeightOfMembers(members) <= |t|
    decreases |t|, 3
  {
    if |members| == 1 {
      MemberWeighsNoMore(t, members[0]);
    } else if |members| > 1 {
      var i :| 0 <= i < |t| && t[i] == ',' && DenotesMember(t[..i], members[0]) &&
        DenotesMembers(t[i + 1..], members[1..]);
      MemberWeighsNoMore(t[..i], members[0]);
      MembersWeighNoMore(t[i + 1..], members[1..]);
    }
  }

  lemma {:induction false} MemberWeighsNoMore(t: string, member: Member)
    requires DenotesMember(t, member)
    ensures Weight(member.value) <= |t|
    decreases |t|, 2
  {
    var i :| 0 <= i < |t| && t[i] == ':' && Denotes(t[..i], Str(member.name)) && Denotes(t[i + 1..], member.value);
    WeighsNoMore(t[i + 1..], member.value);
  }
}
