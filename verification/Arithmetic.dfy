/** What the model needs of multiplication and remainders. */
module Arithmetic {

  lemma MultipleIsLarge(k: int, m: int)
    requires m > 0
    ensures k >= 1 ==> k * m >= m
    ensures k <= 0 ==> k * m <= 0
  {
  }

  lemma NoSmallMultiple(k: int, m: int, d: int)
    requires m > 0 && k * m == d && -m < d < m
    ensures k == 0
  {
    MultipleIsLarge(k, m);
    MultipleIsLarge(-k, m);
  }

  /** A division with remainder has only one remainder. */
  lemma UniqueRemainder(x: int, m: nat, q: int, r: nat)
    requires m > 0 && x == m * q + r && r < m
    ensures x % m == r
  {
    var q', r' := x / m, x % m;
    assert (q - q') * m == r' - r by {
      assert x == m * q' + r';
      assert (q - q') * m == m * q - m * q';
    }
    NoSmallMultiple(q - q', m, r' - r);
  }
}
