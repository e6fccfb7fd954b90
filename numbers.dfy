/** The two JavaScript number primitives the scoring code relies on:
    `Math.min` and `Number(x.toFixed(1))`, stated on exact reals. */
module Numbers {

  /** `Math.min(a, b)`. */
  function Min(a: real, b: real): (r: real)
    ensures r <= a && r <= b
    ensures r == a || r == b
  {
    if a <= b then a else b
  }

  /** The number of tenths nearest to a non-negative value, ties upwards. */
  function TenthsHalfUp(x: real): (n: int)
    requires x >= 0.0
    ensures n >= 0
    ensures -0.5 < n as real - x * 10.0 <= 0.5
  {
    (x * 10.0 + 0.5).Floor
  }

  /** `Number(x.toFixed(1))`: the multiple of 0.1 nearest to `x`; of two equally
      near ones, the one larger in magnitude (negative values are rounded by
      magnitude and given the minus sign back). */
  function Round1(x: real): (r: real)
    ensures (r * 10.0).Floor as real == r * 10.0
    ensures x >= 0.0 ==> -0.05 < r - x <= 0.05 && r >= 0.0
    ensures x < 0.0 ==> -0.05 <= r - x < 0.05 && r <= 0.0
  {
    var n := if x >= 0.0 then TenthsHalfUp(x) else -TenthsHalfUp(-x);
    assert (n as real / 10.0) * 10.0 == n as real;
    n as real / 10.0
  }

  /** Rounding never leaves [0, 10]. */
  lemma Round1Bounds(x: real)
    requires 0.0 <= x <= 10.0
    ensures 0.0 <= Round1(x) <= 10.0
  {
    assert TenthsHalfUp(x) <= 100;
  }

  /** Rounding is monotone. */
  lemma Round1Monotone(x: real, y: real)
    requires x <= y
    ensures Round1(x) <= Round1(y)
  {
    if 0.0 <= x {
      FloorMonotone(x * 10.0 + 0.5, y * 10.0 + 0.5);
    } else if y < 0.0 {
      FloorMonotone(-y * 10.0 + 0.5, -x * 10.0 + 0.5);
    } else {
      assert TenthsHalfUp(y) >= 0 && TenthsHalfUp(-x) >= 0;
    }
  }

  lemma FloorMonotone(a: real, b: real)
    requires a <= b
    ensures a.Floor <= b.Floor
  {
  }

  /** A value that already is a multiple of 0.1 rounds to itself. */
  lemma Round1OfTenth(n: int)
    ensures Round1(n as real / 10.0) == n as real / 10.0
  {
    var x := n as real / 10.0;
    if n >= 0 {
      assert x * 10.0 + 0.5 == n as real + 0.5;
      assert TenthsHalfUp(x) == n;
    } else {
      assert (-x) * 10.0 + 0.5 == (-n) as real + 0.5;
      assert TenthsHalfUp(-x) == -n;
    }
  }
}
