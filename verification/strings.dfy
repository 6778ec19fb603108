/** Substring search, as JavaScript's `String.prototype.includes` and a literal regular expression do it. */
module Strings {

  /** True iff `needle` occurs somewhere in `hay` (every string contains the empty string). */
  predicate Contains(hay: string, needle: string)
    decreases |hay|
  {
    needle <= hay || (|hay| > 0 && Contains(hay[1..], needle))
  }

  /** Reference definition: `needle` sits at some offset of `hay`. */
  ghost predicate OccursAt(hay: string, needle: string, i: int)
  {
    0 <= i && i + |needle| <= |hay| && hay[i..i + |needle|] == needle
  }

  /** Every occurrence is found by `Contains`. */
  lemma {:induction false} OccursImpliesContains(hay: string, needle: string, i: int)
    requires OccursAt(hay, needle, i)
    ensures Contains(hay, needle)
    decreases i
  {
    if i == 0 {
      assert needle <= hay;
    } else {
      assert hay[1..][i - 1..i - 1 + |needle|] == hay[i..i + |needle|];
      OccursImpliesContains(hay[1..], needle, i - 1);
    }
  }

  /** `Contains` only succeeds where there is an occurrence; `i` is the leftmost one. */
  lemma {:induction false} ContainsImpliesOccurs(hay: string, needle: string) returns (i: int)
    requires Contains(hay, needle)
    ensures OccursAt(hay, needle, i)
    decreases |hay|
  {
    if needle <= hay {
      i := 0;
    } else {
      var j := ContainsImpliesOccurs(hay[1..], needle);
      assert hay[j + 1..j + 1 + |needle|] == hay[1..][j..j + |needle|];
      i := j + 1;
    }
  }

  /** `Contains` finds an occurrence exactly when one exists. */
  lemma {:induction false} ContainsIffOccurs(hay: string, needle: string)
    ensures Contains(hay, needle) <==> exists i :: OccursAt(hay, needle, i)
  {
    if Contains(hay, needle) {
      var i := ContainsImpliesOccurs(hay, needle);
    }
    forall i | OccursAt(hay, needle, i)
      ensures Contains(hay, needle)
    {
      OccursImpliesContains(hay, needle, i);
    }
  }

  /** Any string built around `needle` contains it: a superstring always matches. */
  lemma {:induction false} SuperstringContains(prefix: string, needle: string, suffix: string)
    ensures Contains(prefix + needle + suffix, needle)
  {
    var hay := prefix + needle + suffix;
    assert hay[|prefix|..|prefix| + |needle|] == needle;
    OccursImpliesContains(hay, needle, |prefix|);
  }

  /** True iff at least one of `patterns` occurs in `s` (a regular expression `p1|p2|...` of literals). */
  predicate ContainsAny(s: string, patterns: seq<string>)
  {
    exists k :: 0 <= k < |patterns| && Contains(s, patterns[k])
  }
}
