/** Small facts about real multiplication and division that the solver
    finds on its own only in tiny contexts; the orbit proofs cite them. */
module RealArith {

  lemma MulPos(x: real, y: real)
    requires x > 0.0 && y > 0.0
    ensures x * y > 0.0
  {
  }

  lemma MulNonneg(x: real, y: real)
    requires x >= 0.0 && y >= 0.0
    ensures x * y >= 0.0
  {
  }

  lemma CancelPos(x: real, y: real, d: real)
    requires d > 0.0 && x * d <= y * d
    ensures x <= y
  {
  }

  lemma QuotientInUnitRange(num: real, d: real)
    requires d > 0.0 && -d <= num <= d
    ensures -1.0 <= num / d <= 1.0
  {
  }

  lemma QuotientTimesDivisor(num: real, d: real)
    requires d != 0.0
    ensures (num / d) * d == num
  {
  }

  lemma CancelNonzero(x: real, y: real, p: real)
    requires p != 0.0 && x * p == y * p
    ensures x == y
  {
  }

  lemma CubePos(a: real)
    requires a > 0.0
    ensures a * a * a > 0.0
  {
  }
}
