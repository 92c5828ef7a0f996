/** Facts about multiplication and division by a variable. */
module Arithmetic {

  lemma MulMono(a: nat, b: nat, c: nat)
    ensures a <= b ==> a * c <= b * c
  {
  }

  lemma DivTimes(a: nat, b: nat)
    requires b > 0
    ensures a / b * b <= a
  {
  }

  lemma DivAtLeast(a: nat, b: nat, q: nat)
    requires b > 0 && q * b <= a
    ensures q <= a / b
  {
    assert a == a / b * b + a % b;
    MulMono(a / b + 1, q, b);
  }

  lemma DivUnique(a: nat, b: nat, q: nat, r: nat)
    requires r < b && a == q * b + r
    ensures a / b == q
  {
    assert a == a / b * b + a % b;
    MulMono(a / b + 1, q, b);
    MulMono(q + 1, a / b, b);
  }

  lemma ModUnique(a: nat, b: nat, q: nat, r: nat)
    requires r < b && a == q * b + r
    ensures a % b == r
  {
    DivUnique(a, b, q, r);
  }

  lemma ModAdd(a: nat, b: nat, k: nat)
    requires b > 0
    ensures (a + k * b) % b == a % b
  {
    assert a == a / b * b + a % b;
    ModUnique(a + k * b, b, a / b + k, a % b);
  }
}
