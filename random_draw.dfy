/** The random draws of the components. Every `Math.floor(Math.random() * n)` in
    the source is modelled by the value `u` that `Math.random()` returned, a real
    in [0, 1), so that contracts quantify over every possible draw. */
module RandomDraw {

  /** A value `Math.random()` can return. */
  predicate IsUnit(u: real) {
    0.0 <= u < 1.0
  }

  /** `Math.floor(u * n)`: an index drawn uniformly from [0, n). */
  function FloorIndex(u: real, n: nat): (k: int)
    requires IsUnit(u)
    ensures 0 <= k
    ensures n > 0 ==> k < n
    ensures k as real <= u * n as real < k as real + 1.0
  {
    var k := (u * n as real).Floor;
    assert u * n as real < n as real || n == 0 by {
      if n > 0 {
        assert (1.0 - u) * n as real > 0.0;
      }
    }
    k
  }

  /** Every index in [0, n) is reached by some draw. */
  lemma FloorIndexOnto(n: nat, k: nat)
    requires k < n
    ensures IsUnit(k as real / n as real) && FloorIndex(k as real / n as real, n) == k
  {
    var u := k as real / n as real;
    assert u * n as real == k as real;
    assert u < 1.0 by {
      UnitRatio(k as real, n as real);
    }
  }

  lemma UnitRatio(a: real, b: real)
    requires 0.0 <= a < b
    ensures a / b < 1.0
  {
    assert a / b < b / b;
  }
}
