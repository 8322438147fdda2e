/** Secret markers inside variable names: a marker counts only as a delimited part. */
module NameMarkers {
  import opened Basics
  import opened Texts

  predicate IsNameDelimiter(c: char) {
    c == '_' || c == '-' || c == '.' || c == '/' || c == ':'
  }

  /** `marker` stands at `i`, with an underscore, hyphen, dot, slash, colon or end of the name on either side. */
  ghost predicate DelimitedAt(name: string, marker: string, i: nat) {
    && At(name, i, marker)
    && (i == 0 || name[i - 1] in ['_', '-', '.', '/', ':'])
    && (i + |marker| == |name| || name[i + |marker|] in ['_', '-', '.', '/', ':'])
  }

  method NameContainsMarker(name: string, marker: string) returns (found: bool)
    ensures found <==> exists i: nat :: DelimitedAt(name, marker, i)
  {
    if name == marker {
      assert DelimitedAt(name, marker, 0);
      return true;
    }
    var from := 0;
    while from <= |name| - |marker|
      invariant forall i: nat :: i < from ==> !DelimitedAt(name, marker, i)
      decreases |name| - from
    {
      var at := IndexOf(name, marker, from);
      if at.None? {
        return false;
      }
      var i := at.value;
      var after := i + |marker|;
      if (i == 0 || IsNameDelimiter(name[i - 1])) && (after >= |name| || IsNameDelimiter(name[after])) {
        assert DelimitedAt(name, marker, i);
        return true;
      }
      from := i + 1;
    }
    return false;
  }
}
