/** Small facts about products and quotients, one solver-sized step each. */
module Arith {

  lemma MulLe(a: int, b: int, c: nat)
    requires a <= b
    ensures a * c <= b * c && c * a <= c * b
  {
  }

  lemma MulLt(a: int, b: int, c: nat)
    requires a < b && c > 0
    ensures a * c < b * c && c * a < c * b
  {
  }

  lemma MulAssoc(a: int, b: int, c: int)
    ensures a * b * c == a * (b * c) == b * (a * c)
  {
  }

  lemma MulAdd(a: int, b: int, c: int)
    ensures a * (b + c) == a * b + a * c
    ensures (b + c) * a == b * a + c * a
  {
  }

  lemma MulSub(a: int, b: int, c: int)
    ensures a * (b - c) == a * b - a * c
    ensures (b - c) * a == b * a - c * a
  {
  }

  lemma DivLess(u: nat, v: nat, k: int)
    requires v > 0 && u < k * v
    ensures u / v < k
  {
    assert u == (u / v) * v + u % v;
    if u / v >= k {
      MulLe(k, u / v, v);
    }
  }

  lemma DivAtLeast(u: nat, v: nat, k: int)
    requires v > 0 && k * v <= u
    ensures k <= u / v
  {
    assert u == (u / v) * v + u % v;
    MulAdd(v, u / v, 1);
    if u / v < k {
      MulLe(u / v + 1, k, v);
    }
  }

  /** The quotient and remainder are unique. */
  lemma DivUnique(u: nat, v: nat, q: int, r: int)
    requires v > 0 && u == q * v + r && 0 <= r < v
    ensures q == u / v && r == u % v
  {
    DivAtLeast(u, v, q);
    MulAdd(v, q, 1);
    DivLess(u, v, q + 1);
    assert u == (u / v) * v + u % v;
  }

  lemma DivMod(u: nat, v: nat)
    requires v > 0
    ensures u == (u / v) * v + u % v && 0 <= u % v < v
  {
  }
}
