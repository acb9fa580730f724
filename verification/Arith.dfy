/** Integer arithmetic shared by the models: bounds of floors and order of products. */
module Arith {

  function Min(a: int, b: int): (r: int)
    ensures r <= a && r <= b && (r == a || r == b)
  {
    if a < b then a else b
  }

  function Max(a: int, b: int): (r: int)
    ensures a <= r && b <= r && (r == a || r == b)
  {
    if a < b then b else a
  }

  function Clamp(x: int, lo: int, hi: int): int { Min(Max(x, lo), hi) }

  lemma DivBounds(x: nat, d: nat)
    requires d > 0
    ensures (x / d) * d <= x < (x / d + 1) * d
  {
    assert x == (x / d) * d + x % d;
  }

  lemma FloorMonotone(q: nat, q': nat, x: nat, x': nat, d: nat)
    requires q * d <= x <= x' < (q' + 1) * d
    ensures q <= q'
  {
    if q' < q {
      MulMonotone(q' + 1, q, d);
      assert false;
    }
  }

  lemma MulMonotone(a: nat, b: nat, d: nat)
    requires a <= b
    ensures a * d <= b * d
  {
  }

  lemma Distribute(a: int, b: int, d: int)
    ensures (b - a) * d == b * d - a * d && (a + 1) * d == a * d + d && (b + 1) * d == b * d + d
    ensures d * b - d * a == d * (b - a)
  {
  }
}
