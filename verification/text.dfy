/** Substring search on strings, as JavaScript's `String.prototype.includes`
    uses it: the reply classifiers are chains of case-sensitive `includes` tests. */
module Text {

  /** `needle` occurs in `hay` starting at position `i`. */
  ghost predicate OccursAt(hay: string, needle: string, i: int)
  {
    0 <= i && i + |needle| <= |hay| && hay[i..i + |needle|] == needle
  }

  /** The declarative meaning of "`hay` contains `needle`". */
  ghost predicate Occurs(hay: string, needle: string)
  {
    exists i :: OccursAt(hay, needle, i)
  }

  predicate StartsWith(s: string, prefix: string)
  {
    |prefix| <= |s| && s[..|prefix|] == prefix
  }

  /** `hay.includes(needle)`: try every start position, left to right.
      The scan finds the needle exactly when it occurs somewhere. */
  function Includes(hay: string, needle: string): (b: bool)
    ensures b <==> Occurs(hay, needle)
    decreases |hay|
  {
    if StartsWith(hay, needle) then
      assert OccursAt(hay, needle, 0);
      true
    else if |hay| == 0 then
      assert |needle| > 0;
      false
    else
      OccursInTail(hay, needle);
      Includes(hay[1..], needle)
  }

  /** Past a non-matching first position, the needle occurs in the text
      exactly when it occurs in the text's tail. */
  lemma OccursInTail(hay: string, needle: string)
    requires |hay| > 0 && !StartsWith(hay, needle)
    ensures Occurs(hay, needle) <==> Occurs(hay[1..], needle)
  {
    if Occurs(hay[1..], needle) {
      var i :| OccursAt(hay[1..], needle, i);
      assert hay[i + 1..i + 1 + |needle|] == hay[1..][i..i + |needle|];
      assert OccursAt(hay, needle, i + 1);
    }
    if Occurs(hay, needle) {
      assert !OccursAt(hay, needle, 0) by {
        assert hay[0..|needle|] == hay[..|needle|];
      }
      var i :| OccursAt(hay, needle, i);
      assert hay[1..][i - 1..i - 1 + |needle|] == hay[i..i + |needle|];
      assert OccursAt(hay[1..], needle, i - 1);
    }
  }

  /** Anything placed around a string keeps every occurrence inside it. */
  lemma OccursInContext(a: string, s: string, b: string, needle: string)
    requires Occurs(s, needle)
    ensures Occurs(a + s + b, needle)
  {
    var i :| OccursAt(s, needle, i);
    assert (a + s + b)[|a| + i..|a| + i + |needle|] == s[i..i + |needle|];
    assert OccursAt(a + s + b, needle, |a| + i);
  }

  /** A needle cannot occur where its first character never appears. */
  lemma AbsentWithoutFirstChar(hay: string, needle: string)
    requires |needle| > 0
    requires forall i :: 0 <= i <= |hay| - |needle| ==> hay[i] != needle[0]
    ensures !Occurs(hay, needle)
  {
    forall i ensures !OccursAt(hay, needle, i)
    {
      if 0 <= i && i + |needle| <= |hay| {
        assert hay[i..i + |needle|][0] == hay[i];
      }
    }
  }

  /** A string occurs in any text built around it. */
  lemma OccursInFrame(before: string, s: string, after: string)
    ensures Occurs(before + s + after, s)
  {
    assert (before + s + after)[|before|..|before| + |s|] == s;
    assert OccursAt(before + s + after, s, |before|);
  }
}
