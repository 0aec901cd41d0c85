/** The verdict of a local run (the success rate and PASS/FAIL), stated in integers. */
module Verdict {
  import opened ValidationSpec

  /** A run without examples has rate 0 and fails; otherwise it passes exactly when
      100 * correct >= 98 * total, so the comparison needs no division. */
  lemma PassedIff(st: Stats)
    ensures st.total == 0 ==> st.Rate() == 0.0 && !st.Passed()
    ensures st.Passed() <==> st.total > 0 && 100 * st.correct >= 98 * st.total
  {
    if st.total > 0 {
      var c, t := st.correct as real, st.total as real;
      var r := st.Rate();
      assert r == c * 100.0 / t;
      assert r * t == c * 100.0;
      if r >= SuccessThreshold {
        assert r * t >= 98.0 * t;
      } else {
        assert r * t < 98.0 * t;
      }
    }
  }

  /** The rate of a run that matched at most every example is a percentage. */
  lemma RateIsPercentage(st: Stats)
    requires st.correct <= st.total
    ensures 0.0 <= st.Rate() <= 100.0
  {
    if st.total > 0 {
      var c, t := st.correct as real, st.total as real;
      var r := st.Rate();
      assert r * t == c * 100.0;
      assert c <= t;
    }
  }

  /** The threshold is inclusive: 49 matches of 50 (98%) pass, 97 of 99 (about 97.98%) fail. */
  lemma ThresholdIsInclusive()
    ensures Stats(49, 50).Passed()
    ensures !Stats(97, 99).Passed()
  {
    PassedIff(Stats(49, 50));
    PassedIff(Stats(97, 99));
  }
}
