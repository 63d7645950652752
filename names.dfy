/** Display names: Python's `str.capitalize()`, which the encoders apply to a
    property or stream name when no display name is given. */
module Names {

  import opened Results

  predicate IsLower(c: char) { 'a' <= c <= 'z' }
  predicate IsUpper(c: char) { 'A' <= c <= 'Z' }

  function ToUpper(c: char): (u: char)
    ensures !IsLower(u)
  {
    if IsLower(c) then (c as int - 32) as char else c
  }

  function ToLower(c: char): (l: char)
    ensures !IsUpper(l)
  {
    if IsUpper(c) then (c as int + 32) as char else c
  }

  /** The rest of a name after its first character, lower-cased. */
  function Lowered(s: string): (r: string)
    ensures |r| == |s|
    ensures forall i :: 0 <= i < |s| ==> r[i] == ToLower(s[i])
  {
    if s == [] then [] else [ToLower(s[0])] + Lowered(s[1..])
  }

  /** `name.capitalize()`: the first character upper-cased and every other
      character LOWER-cased, so "numberOfCats" becomes "Numberofcats". */
  function Capitalize(name: string): (r: string)
    ensures |r| == |name|
    ensures |name| > 0 ==> r[0] == ToUpper(name[0])
    ensures forall i :: 0 < i < |name| ==> r[i] == ToLower(name[i])
  {
    if name == [] then [] else [ToUpper(name[0])] + Lowered(name[1..])
  }

  /** Capitalizing twice is capitalizing once. */
  lemma CapitalizeIdempotent(name: string)
    ensures Capitalize(Capitalize(name)) == Capitalize(name)
  {
    var c := Capitalize(name);
    var cc := Capitalize(c);
    assert |cc| == |c|;
    forall i | 0 <= i < |c| ensures cc[i] == c[i] {
      if i > 0 {
        assert cc[i] == ToLower(c[i]) && c[i] == ToLower(name[i]);
      }
    }
  }

  /** The contract of Capitalize determines its result. */
  lemma CapitalizeIs(name: string, expected: string)
    requires |expected| == |name|
    requires |name| > 0 ==> expected[0] == ToUpper(name[0])
    requires forall i :: 0 < i < |name| ==> expected[i] == ToLower(name[i])
    ensures Capitalize(name) == expected
  {
    var r := Capitalize(name);
    assert forall i :: 0 <= i < |name| ==> r[i] == expected[i];
  }

  /** The name of the sample number property loses its inner capital. */
  lemma CapitalizeExample()
    ensures Capitalize("numberOfCats") == "Numberofcats"
  {
    var name, expected := "numberOfCats", "Numberofcats";
    forall i | 0 < i < 12 ensures expected[i] == ToLower(name[i]) {
    }
    CapitalizeIs(name, expected);
  }

  /** The display name an encoder uses: the one given, even when empty, or
      else the capitalized name (`if display_name is None`). */
  function DisplayName(name: string, given: Option<string>): (r: string)
    ensures given.Some? ==> r == given.value
    ensures given.None? ==> r == Capitalize(name)
  {
    if given.None? then Capitalize(name) else given.value
  }
}
