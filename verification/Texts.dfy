/** Characters, runs of characters and substring search. */
module Texts {
  import opened Basics

  /** White space of the regular expression class \s. */
  predicate IsSpace(c: char) {
    var n := c as int;
    || 9 <= n <= 13 || n == 32 || n == 0xA0 || n == 0x1680 || 0x2000 <= n <= 0x200A
    || n == 0x2028 || n == 0x2029 || n == 0x202F || n == 0x205F || n == 0x3000 || n == 0xFEFF
  }

  predicate IsDigit(c: char) {
    '0' <= c <= '9'
  }

  // toLowerCase, for ASCII.

  function LowerChar(c: char): char {
    if 'A' <= c <= 'Z' then ((c as int) + 32) as char else c
  }

  /** Letters of the basic Latin alphabet are compared without their case, all other characters as they are. */
  lemma LowerExactly(c: char, d: char)
    ensures LowerChar(c) == LowerChar(d) <==>
      || c == d
      || ('A' <= c <= 'Z' && d as int == c as int + 32)
      || ('A' <= d <= 'Z' && c as int == d as int + 32)
  {
  }

  function Lowered(t: string): (l: string)
    ensures |l| == |t| && forall i :: 0 <= i < |t| ==> l[i] == LowerChar(t[i])
  {
    seq(|t|, i requires 0 <= i < |t| => LowerChar(t[i]))
  }

  /** Length of the longest prefix of `t` in which every character satisfies `p`. */
  function Span(t: string, p: char -> bool): (n: nat)
    ensures n <= |t|
    ensures forall i :: 0 <= i < n ==> p(t[i])
    ensures n < |t| ==> !p(t[n])
  {
    if t == "" || !p(t[0]) then 0 else 1 + Span(t[1..], p)
  }

  lemma {:induction false} SpanUnique(t: string, p: char -> bool, n: nat)
    requires n <= |t| && (forall i :: 0 <= i < n ==> p(t[i])) && (n < |t| ==> !p(t[n]))
    ensures Span(t, p) == n
  {
    if n > 0 {
      SpanUnique(t[1..], p, n - 1);
    }
  }

  predicate At(t: string, i: nat, needle: string) {
    i + |needle| <= |t| && t[i..i + |needle|] == needle
  }

  /** String.indexOf: the first place at or after `from` where `needle` stands. */
  function IndexOf(t: string, needle: string, from: nat): (found: Option<nat>)
    ensures found.Some? ==> from <= found.value && At(t, found.value, needle)
    ensures found.Some? ==> forall j :: from <= j < found.value ==> !At(t, j, needle)
    ensures found.None? ==> forall j :: from <= j ==> !At(t, j, needle)
    decreases |t| - from
  {
    if from + |needle| > |t| then None
    else if At(t, from, needle) then Some(from)
    else if from == |t| then None
    else IndexOf(t, needle, from + 1)
  }

  lemma IndexIs(t: string, needle: string, from: nat, k: nat)
    requires from <= k && At(t, k, needle) && forall j :: from <= j < k ==> !At(t, j, needle)
    ensures IndexOf(t, needle, from) == Some(k)
  {
  }

  lemma AtShift(t: string, from: nat, j: nat, needle: string)
    requires from <= |t|
    ensures At(t[from..], j, needle) == At(t, from + j, needle)
  {
    if j + |needle| <= |t[from..]| {
      assert t[from..][j..j + |needle|] == t[from + j..from + j + |needle|];
    }
  }

  lemma IndexShift(t: string, needle: string, from: nat)
    requires from <= |t|
    ensures IndexOf(t, needle, from) ==
            match IndexOf(t[from..], needle, 0) case Some(k) => Some(from + k) case None => None
  {
    if IndexOf(t[from..], needle, 0).Some? {
      AtShift(t, from, IndexOf(t[from..], needle, 0).value, needle);
    }
    match IndexOf(t[from..], needle, 0)
    case Some(k) =>
      forall j | from <= j < from + k
        ensures !At(t, j, needle)
      {
        AtShift(t, from, j - from, needle);
      }
      IndexIs(t, needle, from, from + k);
    case None =>
      if IndexOf(t, needle, from).Some? {
        AtShift(t, from, IndexOf(t, needle, from).value - from, needle);
        assert false;
      }
  }

  /** Whether a text stands somewhere depends only on the part it covers. */
  lemma AtWithin(a: string, b: string, j: nat, needle: string)
    requires j + |needle| <= |a|
    ensures At(a + b, j, needle) == At(a, j, needle)
  {
    assert (a + b)[j..j + |needle|] == a[j..j + |needle|];
  }
}
