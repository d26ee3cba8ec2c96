/** Facts about real multiplication shared by the navigation and dot-width
    proofs. */
module Arith {

  /** A positive factor can be cancelled from both sides of a comparison. */
  lemma MulLessCancel(a: real, b: real, c: real)
    requires c > 0.0
    ensures a * c <= b * c ==> a <= b
    ensures a * c < b * c ==> a < b
  {
    if a > b {
      assert (a - b) * c > 0.0;
    }
  }
}
