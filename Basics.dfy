/** Small definitions shared by the three components: an Option type,
    integer minimum/maximum and subsequences. */
module Basics {

  datatype Option<+T> = None | Some(value: T)

  function Min(a: int, b: int): int { if a <= b then a else b }

  function Max(a: int, b: int): int { if a >= b then a else b }

  /** `z` can be obtained from `s` by deleting elements: either both are
      non-empty, end with the same element and the rest of `z` is a
      subsequence of the rest of `s`, or `z` is a subsequence of `s`
      without its last element. */
  predicate IsSubseq<T(==)>(z: seq<T>, s: seq<T>)
    decreases |s|
  {
    z == [] ||
    (s != [] &&
     ((z[|z| - 1] == s[|s| - 1] && IsSubseq(z[..|z| - 1], s[..|s| - 1])) ||
      IsSubseq(z, s[..|s| - 1])))
  }

  lemma {:induction false} SubseqLength<T>(z: seq<T>, s: seq<T>)
    requires IsSubseq(z, s)
    ensures |z| <= |s|
    decreases |s|
  {
    if z != [] {
      if z[|z| - 1] == s[|s| - 1] && IsSubseq(z[..|z| - 1], s[..|s| - 1]) {
        SubseqLength(z[..|z| - 1], s[..|s| - 1]);
      } else {
        SubseqLength(z, s[..|s| - 1]);
      }
    }
  }

  /** Appending to the larger sequence keeps a subsequence. */
  lemma SubseqAppend<T>(z: seq<T>, s: seq<T>, x: T)
    requires IsSubseq(z, s)
    ensures IsSubseq(z, s + [x])
  {
    assert (s + [x])[..|s|] == s;
  }

  /** Appending the same element to both keeps a subsequence. */
  lemma SubseqSnoc<T>(z: seq<T>, s: seq<T>, x: T)
    requires IsSubseq(z, s)
    ensures IsSubseq(z + [x], s + [x])
  {
    assert (z + [x])[..|z|] == z;
    assert (s + [x])[..|s|] == s;
  }
}
