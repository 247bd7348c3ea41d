/** Multiples of a step. */
module Steps {
  lemma Remainder(q: nat, b: nat, step: nat)
    requires b < step
    ensures (q * step + b) % step == b
  {
    var n := q * step + b;
    var p := n / step;
    assert n == p * step + n % step;
    Products(p + 1, q, step);
    Products(q + 1, p, step);
  }

  lemma Products(a: nat, b: nat, step: nat)
    ensures a <= b ==> a * step <= b * step
    ensures (a + 1) * step == a * step + step
  {}

  lemma MultipleIsOnStep(lo: int, k: nat, step: nat)
    requires step > 0
    ensures lo <= lo + k * step && (lo + k * step - lo) % step == 0
  {
    Remainder(k, 0, step);
  }

  lemma QuotientIsMultiple(n: nat, step: nat)
    requires step > 0 && n % step == 0
    ensures n == n / step * step
  {}
}
