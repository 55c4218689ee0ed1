/** Shapes of tensors and memrefs. */
module Shapes {

  predicate Positive(shape: seq<int>)
  {
    forall i :: 0 <= i < |shape| ==> shape[i] > 0
  }

  function Product(shape: seq<int>): int
  {
    if shape == [] then 1 else shape[0] * Product(shape[1..])
  }

  lemma {:induction false} ProductPositive(shape: seq<int>)
    requires Positive(shape)
    ensures Product(shape) > 0
  {
    if shape != [] {
      ProductPositive(shape[1..]);
      MulPositive(shape[0], Product(shape[1..]));
    }
  }

  lemma MulPositive(a: int, b: int)
    requires a > 0 && b > 0
    ensures a * b > 0
  {
  }

  lemma DivModUnique(p: int, q: int, r: int)
    requires p > 0 && 0 <= r < p
    ensures (p * q + r) / p == q && (p * q + r) % p == r
  {
    var a := p * q + r;
    var d := a / p - q;
    assert p * d == p * (a / p) - p * q == r - a % p;
    MulMonotone(p, 1, d);
    MulMonotone(p, d, -1);
  }

  lemma MulMonotone(p: int, x: int, y: int)
    requires p > 0
    ensures x <= y ==> p * x <= p * y
  {
  }
}
