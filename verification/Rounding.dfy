/** The roundings of `Math`. */
module Rounding {
  /** Math.round: halves go up. */
  function Round(x: real): int {
    (x + 0.5).Floor
  }

  /** Math.ceil. */
  function Ceil(x: real): int {
    -((-x).Floor)
  }

  function Max(a: real, b: real): real { if a >= b then a else b }
  function Min(a: real, b: real): real { if a <= b then a else b }

  predicate Whole(x: real) {
    x.Floor as real == x
  }

  lemma FloorIs(x: real, n: int)
    requires n as real <= x < n as real + 1.0
    ensures x.Floor == n
  {
    var d := x.Floor - n;
    assert d as real == x.Floor as real - n as real;
  }

  /** Math.ceil is the least whole number that is not below. */
  lemma CeilIsLeast(x: real, n: int)
    ensures x <= n as real <==> Ceil(x) <= n
  {
    var k := Ceil(x) - n;
    assert k as real == Ceil(x) as real - n as real;
  }

  /** Math.round is the nearest whole number, the upper one of two. */
  lemma RoundIsNearest(x: real)
    ensures x - 0.5 < Round(x) as real <= x + 0.5
  {
  }

  lemma RoundIsWhole(x: real)
    ensures Whole(Round(x) as real)
  {
    FloorIs(Round(x) as real, Round(x));
  }

  /** Rounding leaves whole numbers alone. */
  lemma RoundWhole(x: real)
    requires Whole(x)
    ensures Round(x) as real == x
  {
    FloorIs(x + 0.5, x.Floor);
  }

  lemma WholeSum(a: real, b: real)
    requires Whole(a) && Whole(b)
    ensures Whole(a + b) && Whole(a - b)
  {
    FloorIs(a + b, a.Floor + b.Floor);
    FloorIs(a - b, a.Floor - b.Floor);
  }

  lemma WholeChoice(a: real, b: real)
    requires Whole(a) && Whole(b)
    ensures Whole(Min(a, b)) && Whole(Max(a, b))
  {
  }
}
