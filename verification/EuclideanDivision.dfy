/** Facts of division with remainder that the solver does not find by itself. */
module EuclideanDivision {

  lemma MultipleAtLeast(w: int, d: int)
    requires w > 0 && d >= 1
    ensures w * d >= w
  {
    assert w * d == w * (d - 1) + w;
  }

  lemma QuotientsAgree(w: int, q: int, r: int, p: int, s: int)
    requires w > 0 && w * q + r == w * p + s && 0 <= r < w && 0 <= s < w
    ensures q == p && r == s
  {
    assert w * (q - p) == s - r;
    assert w * (p - q) == r - s;
    if q > p { MultipleAtLeast(w, q - p); }
    if p > q { MultipleAtLeast(w, p - q); }
  }

  lemma EuclideanUnique(x: int, w: int, q: int, r: int)
    requires w > 0 && x == w * q + r && 0 <= r < w
    ensures x / w == q && x % w == r
  {
    QuotientsAgree(w, q, r, x / w, x % w);
  }

  lemma DivisionOfShift(x: int, w: int, n: int)
    requires w > 0
    ensures (x - w * n) / w == x / w - n && (x - w * n) % w == x % w
  {
    assert w * (x / w - n) == w * (x / w) - w * n;
    EuclideanUnique(x - w * n, w, x / w - n, x % w);
  }
}
