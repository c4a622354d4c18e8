/** Where one sequence occurs inside another. */
module Sequences {

  predicate OccursAt<T(==)>(s: seq<T>, part: seq<T>, k: nat) {
    k + |part| <= |s| && s[k..k + |part|] == part
  }

  predicate Contains<T(==)>(s: seq<T>, part: seq<T>) {
    exists k :: 0 <= k <= |s| && OccursAt(s, part, k)
  }

  /** To contain a part is to be something, then the part, then something. */
  lemma ContainsMeans<T>(s: seq<T>, part: seq<T>)
    ensures Contains(s, part) <==> exists before, after :: s == before + part + after
  {
    if Contains(s, part) {
      var k :| 0 <= k <= |s| && OccursAt(s, part, k);
      assert s == s[..k] + part + s[k + |part|..];
    }
    if before, after :| s == before + part + after {
      assert OccursAt(s, part, |before|);
    }
  }

  lemma SliceOfRest<T>(s: seq<T>, off: nat, i: nat, j: nat)
    requires i <= j && off + j <= |s|
    ensures s[off..][i..j] == s[off + i..off + j]
  {
    var x, y := s[off..][i..j], s[off + i..off + j];
    assert |x| == |y|;
    forall k | 0 <= k < |x|
      ensures x[k] == y[k]
    {
      assert x[k] == s[off..][i + k] == s[off + i + k] == y[k];
    }
  }
}
