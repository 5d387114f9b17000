/**
 * The integer part of the web endpoint's Elo update (`update_ratings`): with K = 32 the
 * winner gains `int(K * (1 - E_w))` and the loser changes by `int(K * (0 - E_l))`, where
 * `E_l = 1 - E_w` and Python's `int()` truncates toward zero. The expectation `E_w` itself,
 * `1 / (1 + 10 ** ((L - W) / 400))`, is floating point; it enters as a real number, or
 * through the power `10 ** ((L - W) / 400)` as `tenPow`.
 */
module Elo {

  /** The K-factor: the largest change one match can make. */
  const K: int := 32

  /** Python's `int(x)` on a float: truncation toward zero. */
  function Trunc(x: real): int
  {
    if x >= 0.0 then x.Floor else -((-x).Floor)
  }

  /** `1 / (1 + tenPow)`: the winner's expected score. */
  function Expected(tenPow: real): real
    requires tenPow > 0.0
  {
    1.0 / (1.0 + tenPow)
  }

  /** The winner's rating change for expectation `ew`. */
  function WinnerChange(ew: real): int
  {
    Trunc(K as real * (1.0 - ew))
  }

  /** The loser's rating change: `expected_loser = 1 - expected_winner`, actual score 0. */
  function LoserChange(ew: real): int
  {
    Trunc(K as real * (0.0 - (1.0 - ew)))
  }

  /** Truncation moves toward zero by less than one and keeps the sign. */
  lemma TruncBounds(x: real)
    ensures x >= 0.0 ==> 0 <= Trunc(x) && Trunc(x) as real <= x < Trunc(x) as real + 1.0
    ensures x <= 0.0 ==> Trunc(x) <= 0 && Trunc(x) as real - 1.0 < x <= Trunc(x) as real
    ensures Trunc(-x) == -Trunc(x)
  {
  }

  /** The expectation of the winner lies strictly between 0 and 1. */
  lemma ExpectedInRange(tenPow: real)
    requires tenPow > 0.0
    ensures 0.0 < Expected(tenPow) < 1.0
  {
  }

  /**
   * For an expectation in [0, 1] the winner never loses points and the loser never gains,
   * each by at most K, and the two changes cancel exactly.
   */
  lemma ChangesBounded(ew: real)
    requires 0.0 <= ew <= 1.0
    ensures 0 <= WinnerChange(ew) <= K
    ensures -K <= LoserChange(ew) <= 0
    ensures LoserChange(ew) == -WinnerChange(ew)
  {
    TruncBounds(K as real * (1.0 - ew));
    assert K as real * (0.0 - (1.0 - ew)) == -(K as real * (1.0 - ew));
    TruncBounds(K as real * (0.0 - (1.0 - ew)));
  }

  /** The less expected the win, the larger the winner's gain. */
  lemma UnderdogGainsMore(e1: real, e2: real)
    requires 0.0 <= e1 <= e2 <= 1.0
    ensures WinnerChange(e1) >= WinnerChange(e2)
  {
    var x1 := K as real * (1.0 - e1);
    var x2 := K as real * (1.0 - e2);
    assert x2 <= x1;
    TruncBounds(x1);
    TruncBounds(x2);
  }

  /** Equal ratings: `10 ** 0 == 1`, so E_w = 0.5 and the changes are +16 and -16. */
  lemma EqualRatingsSwing()
    ensures Expected(1.0) == 0.5
    ensures WinnerChange(Expected(1.0)) == 16 && LoserChange(Expected(1.0)) == -16
  {
    assert K as real * (1.0 - 0.5) == 16.0;
    assert K as real * (0.0 - (1.0 - 0.5)) == -16.0;
  }

  /**
   * A 1200-rated winner against a 1400-rated loser: `10 ** (200 / 400)` is about 3.1623,
   * so E_w is about 0.2403 and the winner gains 24 while the loser drops 24.
   */
  lemma UnderdogExample(tenPow: real)
    requires 3.162 <= tenPow <= 3.163
    ensures WinnerChange(Expected(tenPow)) == 24 && LoserChange(Expected(tenPow)) == -24
  {
    var e := Expected(tenPow);
    var d := 1.0 + tenPow;
    assert e * d == 1.0 && e > 0.0;
    assert e * 4.162 <= e * d <= e * 4.163;
    assert 0.24 < e < 0.241;
    var x := K as real * (1.0 - e);
    assert 24.0 < x < 25.0;
    TruncBounds(x);
    ChangesBounded(e);
  }
}
