/** Small helpers shared by every part of the model: optional values, results,
    Python's `str.lower()` restricted to ASCII, and Python's `needle in hay`. */
module Common {

  datatype Option<+T> = None | Some(value: T)

  datatype Result<+T, +E> = Ok(value: T) | Err(error: E)

  /** Lower-cases one character; only the ASCII letters A-Z change. */
  function LowerChar(c: char): (r: char)
    ensures 'A' <= c <= 'Z' ==> 'a' <= r <= 'z' && r as int == c as int + 32
    ensures !('A' <= c <= 'Z') ==> r == c
  {
    if 'A' <= c <= 'Z' then (c as int - 'A' as int + 'a' as int) as char else c
  }

  function Lower(s: string): (r: string)
    ensures |r| == |s|
  {
    seq(|s|, k requires 0 <= k < |s| => LowerChar(s[k]))
  }

  /** Lower-casing twice is lower-casing once: no upper-case letter is left. */
  lemma LowerIdempotent(s: string)
    ensures Lower(Lower(s)) == Lower(s)
  {
    forall k | 0 <= k < |s| ensures Lower(Lower(s))[k] == Lower(s)[k] {
      assert !('A' <= Lower(s)[k] <= 'Z');
    }
  }

  /** `needle` occurs in `hay` starting at position `k`. */
  ghost predicate OccursAt(hay: string, needle: string, k: nat)
  {
    k + |needle| <= |hay| && hay[k..k + |needle|] == needle
  }

  /** Python's substring test `needle in hay[i:]`, scanning left to right. */
  function ContainsFrom(hay: string, needle: string, i: nat): (r: bool)
    ensures r <==> exists k :: i <= k && OccursAt(hay, needle, k)
    decreases |hay| - i
  {
    if i + |needle| > |hay| then
      assert forall k :: i <= k ==> !OccursAt(hay, needle, k);
      false
    else if hay[i..i + |needle|] == needle then
      assert OccursAt(hay, needle, i);
      true
    else
      var rest := ContainsFrom(hay, needle, i + 1);
      assert forall k :: i <= k && OccursAt(hay, needle, k) ==> k == i || i + 1 <= k;
      rest
  }

  /** Python's `needle in hay`. */
  function Contains(hay: string, needle: string): (r: bool)
    ensures r <==> exists k :: OccursAt(hay, needle, k)
  {
    ContainsFrom(hay, needle, 0)
  }

  /** Python's `"" in s` is true for every string. */
  lemma EmptyNeedleOccurs(hay: string)
    ensures Contains(hay, "")
  {
    assert OccursAt(hay, "", 0);
  }

  /** A needle holding a character that the haystack lacks never occurs in it. */
  lemma MissingCharNotContained(hay: string, needle: string, j: nat)
    requires j < |needle| && needle[j] !in hay
    ensures !Contains(hay, needle)
  {
    forall k: nat ensures !OccursAt(hay, needle, k) {
      if k + |needle| <= |hay| {
        assert hay[k..k + |needle|][j] == hay[k + j];
      }
    }
  }

  /** Occurrences survive extending the haystack on either side. */
  lemma OccursInExtension(pre: string, hay: string, post: string, needle: string, k: nat)
    requires OccursAt(hay, needle, k)
    ensures OccursAt(pre + hay + post, needle, |pre| + k)
  {
    var big := pre + hay + post;
    assert big[|pre| + k..|pre| + k + |needle|] == hay[k..k + |needle|];
  }

  lemma LowerOfConcat(a: string, b: string)
    ensures Lower(a + b) == Lower(a) + Lower(b)
  {
  }

  /** A phrase already in lower case still occurs after lower-casing any
      text it occurs in. */
  lemma PhraseSurvivesLower(pre: string, phrase: string, post: string)
    requires Lower(phrase) == phrase
    ensures Contains(Lower(pre + phrase + post), phrase)
  {
    LowerOfConcat(pre + phrase, post);
    LowerOfConcat(pre, phrase);
    assert OccursAt(phrase, phrase, 0);
    OccursInExtension(Lower(pre), phrase, Lower(post), phrase, 0);
  }
}
