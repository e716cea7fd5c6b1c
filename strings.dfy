/** The JavaScript string operations the catalogue relies on:
    `toLowerCase` (ASCII letters only), `includes`, and `localeCompare`,
    which is taken to be any collation (a total preorder reported as the sign
    of an integer). */
module Strings {

  function LowerChar(c: char): char {
    if 'A' <= c <= 'Z' then (c as int + 32) as char else c
  }

  /** `String.prototype.toLowerCase`, mapping ASCII capitals to small letters. */
  function Lower(s: string): (r: string)
    ensures |r| == |s|
    ensures forall i :: 0 <= i < |s| ==> r[i] == LowerChar(s[i])
    ensures forall i :: 0 <= i < |r| ==> !('A' <= r[i] <= 'Z')
  {
    seq(|s|, i requires 0 <= i < |s| => LowerChar(s[i]))
  }

  lemma LowerIdempotent(s: string)
    ensures Lower(Lower(s)) == Lower(s)
  {
  }

  predicate StartsWith(s: string, prefix: string) {
    |prefix| <= |s| && s[..|prefix|] == prefix
  }

  /** `needle` occurs in `hay` starting at offset `i`. */
  ghost predicate OccursAt(hay: string, needle: string, i: int) {
    0 <= i <= |hay| - |needle| && hay[i..i + |needle|] == needle
  }

  /** `String.prototype.includes`: `needle` occurs in `hay` at some offset. */
  function Contains(hay: string, needle: string): (r: bool)
    ensures r <==> exists i :: OccursAt(hay, needle, i)
    decreases |hay|
  {
    if StartsWith(hay, needle) then
      assert OccursAt(hay, needle, 0);
      true
    else if hay == [] then
      assert forall i :: !OccursAt(hay, needle, i);
      false
    else
      ContainsShift(hay, needle);
      Contains(hay[1..], needle)
  }

  /** An occurrence at a positive offset is an occurrence in the tail. */
  lemma ContainsShift(hay: string, needle: string)
    requires hay != [] && !StartsWith(hay, needle)
    ensures (exists i :: OccursAt(hay, needle, i)) <==> (exists i :: OccursAt(hay[1..], needle, i))
  {
    if i :| OccursAt(hay, needle, i) {
      assert i != 0;
      assert hay[1..][i - 1..i - 1 + |needle|] == hay[i..i + |needle|];
      assert OccursAt(hay[1..], needle, i - 1);
    }
    if i :| OccursAt(hay[1..], needle, i) {
      assert hay[i + 1..i + 1 + |needle|] == hay[1..][i..i + |needle|];
      assert OccursAt(hay, needle, i + 1);
    }
  }

  /** The laws `localeCompare` obeys: the sign is antisymmetric and
      "not after" is transitive, so "not after" is a total preorder. */
  ghost predicate IsCollation(compare: (string, string) -> int) {
    && (forall s, t :: compare(s, t) < 0 <==> compare(t, s) > 0)
    && (forall s, t, u :: compare(s, t) <= 0 && compare(t, u) <= 0 ==> compare(s, u) <= 0)
  }

  /** One lawful collation: lexicographic order of code points (a `char` is a
      Unicode scalar value). */
  function CodePointCompare(s: string, t: string): (r: int)
    ensures -1 <= r <= 1
    ensures r == 0 <==> s == t
  {
    if s == [] && t == [] then 0
    else if s == [] then -1
    else if t == [] then 1
    else if s[0] < t[0] then -1
    else if s[0] > t[0] then 1
    else
      assert s == [s[0]] + s[1..] && t == [t[0]] + t[1..];
      CodePointCompare(s[1..], t[1..])
  }

  lemma {:induction false} CodePointAntisymmetric(s: string, t: string)
    ensures CodePointCompare(s, t) == -CodePointCompare(t, s)
  {
    if s != [] && t != [] && s[0] == t[0] {
      CodePointAntisymmetric(s[1..], t[1..]);
    }
  }

  lemma {:induction false} CodePointTransitive(s: string, t: string, u: string)
    requires CodePointCompare(s, t) <= 0 && CodePointCompare(t, u) <= 0
    ensures CodePointCompare(s, u) <= 0
  {
    if s != [] && t != [] && u != [] && s[0] == t[0] == u[0] {
      CodePointTransitive(s[1..], t[1..], u[1..]);
    }
  }

  lemma CodePointCompareIsCollation()
    ensures IsCollation(CodePointCompare)
  {
    forall s, t
      ensures CodePointCompare(s, t) < 0 <==> CodePointCompare(t, s) > 0
    {
      CodePointAntisymmetric(s, t);
    }
    forall s, t, u | CodePointCompare(s, t) <= 0 && CodePointCompare(t, u) <= 0
      ensures CodePointCompare(s, u) <= 0
    {
      CodePointTransitive(s, t, u);
    }
  }
}
