/** Products with a natural factor. */
module Products {

  lemma Scaled(a: int, b: int, k: int)
    requires a <= b && k >= 0
    ensures a * k <= b * k
  {
  }

  lemma OneMore(a: int, k: int)
    ensures (a + 1) * k == a * k + k && (a - 1) * k == a * k - k
  {
  }
}
