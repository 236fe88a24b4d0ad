/** The few facts of integer division and products that index computations need. */
module Arith {

  lemma MulMono(a: nat, b: nat, c: nat)
    requires a <= b
    ensures a * c <= b * c
  {
  }

  lemma MulAssoc(a: nat, b: nat, c: nat)
    ensures a * b * c == a * (b * c)
  {
  }

  /** Quotient and remainder are determined by `a == q * f + r` with `r` in range. */
  lemma DivModUnique(a: nat, f: nat, q: nat, r: nat)
    requires f > 0 && a == q * f + r && r < f
    ensures a / f == q && a % f == r
  {
    var p := a / f;
    assert a == p * f + a % f;
    assert (p + 1) * f == p * f + f && (q + 1) * f == q * f + f;
    if p < q { MulMono(p + 1, q, f); }
    if q < p { MulMono(q + 1, p, f); }
  }

  lemma ModStep(a: nat, f: nat)
    requires 0 < f <= a
    ensures a % f == (a - f) % f
  {
    var q, r := (a - f) / f, (a - f) % f;
    assert a - f == q * f + r;
    assert (q + 1) * f == q * f + f;
    DivModUnique(a, f, q + 1, r);
  }

  /** The padding that completes a block of `f`. */
  lemma PadAmount(r: nat, f: nat)
    requires r < f
    ensures (f - r) % f == if r == 0 then 0 else f - r
  {
    if r == 0 { DivModUnique(f, f, 1, 0); } else { DivModUnique(f - r, f, 0, f - r); }
  }
}
