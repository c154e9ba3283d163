/** The percentage formula behind the progress bar, on exact numbers:
    `done` out of `total` times a hundred, or 0 when there is nothing to
    count. */
module Percentage {

  /** `done` out of `total` as a percentage, exact; 0 when `total` is 0. */
  function Percent(done: nat, total: nat): (p: real)
    requires done <= total
    ensures 0.0 <= p <= 100.0
    ensures p * (total as real) == (done as real) * 100.0
    ensures p == 0.0 <==> done == 0
    ensures p == 100.0 <==> 0 < total && done == total
  {
    if total > 0 then
      var q := (done as real) / (total as real);
      ShareBounds(done as real, total as real);
      assert q * 100.0 * (total as real) == (q * (total as real)) * 100.0;
      q * 100.0
    else 0.0
  }

  /** The share `d / t` of a part in a positive whole lies in [0, 1], is 0
      only for an empty part and 1 only for the whole. */
  lemma ShareBounds(d: real, t: real)
    requires 0.0 <= d <= t && 0.0 < t
    ensures (d / t) * t == d
    ensures 0.0 <= d / t <= 1.0
    ensures d / t == 0.0 <==> d == 0.0
    ensures d / t == 1.0 <==> d == t
  {
    var q := d / t;
    assert q * t == d;
    assert q < 0.0 ==> q * t < 0.0;
    assert q > 1.0 ==> q * t > t;
    assert q == 1.0 ==> q * t == t;
    assert q == 0.0 ==> q * t == 0.0;
  }

}
