/** Quotients and remainders of natural numbers. */
module Arithmetic {

  lemma Gap(p: int, q: int, w: int)
    requires p < q && w >= 0
    ensures p * w + w <= q * w
  {
    assert q * w - p * w == (q - p) * w;
    assert (q - p - 1) * w >= 0;
  }

  lemma SameGroup(p: int, i: int, q: int, j: int, w: int)
    requires p * w + i == q * w + j && 0 <= i < w && 0 <= j < w
    ensures p == q && i == j
  {
    if p < q { Gap(p, q, w); }
    if q < p { Gap(q, p, w); }
  }

  lemma Split(w: nat, n: nat)
    requires w > 0
    ensures n == (n / w) * w + n % w && n % w < w
  {
  }

  lemma DivIs(n: nat, w: nat, q: nat, r: nat)
    requires n == q * w + r && r < w
    ensures n / w == q && n % w == r
  {
    Split(w, n);
    SameGroup(n / w, n % w, q, r, w);
  }
}
