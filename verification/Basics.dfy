/** Arithmetic and counting that several parts need. */
module Basics {
  function Abs(x: int): nat { if x < 0 then -x else x }
  function Max(a: int, b: int): int { if a >= b then a else b }
  function Min(a: int, b: int): int { if a <= b then a else b }

  /** To the nearest integer, halves up. */
  function Round(x: real): int { (x + 0.5).Floor }

  lemma SubsetSize<T>(a: set<T>, b: set<T>)
    requires a <= b
    ensures |a| <= |b| && (|a| == |b| ==> a == b)
  {
    assert b == a + (b - a) && |b| == |a| + |b - a|;
  }
}
