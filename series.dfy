/** The running quantities both drawdown charts compute over a sequence of
    profit-and-loss amounts: the running sum (equity above a baseline), the
    running peak of that equity, and the drawdown `peak - equity`. Each quantity
    is a function of the baseline and of the prefix of amounts seen so far. */
module Series {

  /** Sum of the amounts, peeled from the end so that extending a prefix is one step. */
  function Sum(s: seq<real>): real {
    if s == [] then 0.0 else Sum(s[..|s| - 1]) + s[|s| - 1]
  }

  function Abs(x: real): (a: real)
    ensures a >= 0.0 && (a == x || a == -x)
  {
    if x < 0.0 then -x else x
  }

  /** Sum of the magnitudes of the amounts. */
  function SumAbs(s: seq<real>): (t: real)
    ensures t >= 0.0
  {
    if s == [] then 0.0 else SumAbs(s[..|s| - 1]) + Abs(s[|s| - 1])
  }

  /** `Math.max(a, b)`. */
  function Max(a: real, b: real): (m: real)
    ensures m >= a && m >= b
    ensures m == a || m == b
  {
    if a >= b then a else b
  }

  lemma SumStep(s: seq<real>, k: nat)
    requires k < |s|
    ensures Sum(s[..k + 1]) == Sum(s[..k]) + s[k]
    ensures SumAbs(s[..k + 1]) == SumAbs(s[..k]) + Abs(s[k])
  {
    assert s[..k + 1][..k] == s[..k];
  }

  /** The peak after the amounts `s`: the baseline, raised whenever the equity
      `base + Sum(prefix)` exceeds it. */
  function RunningPeak(base: real, s: seq<real>): (peak: real)
    ensures peak >= base && peak >= base + Sum(s)
  {
    if s == [] then base else Max(RunningPeak(base, s[..|s| - 1]), base + Sum(s))
  }

  lemma PeakStep(base: real, s: seq<real>, k: nat)
    requires k < |s|
    ensures RunningPeak(base, s[..k + 1]) == Max(RunningPeak(base, s[..k]), base + Sum(s[..k + 1]))
  {
    assert s[..k + 1][..k] == s[..k];
  }

  /** The drawdown after the amounts `s`: how far the equity is below its peak. */
  function Drawdown(base: real, s: seq<real>): (d: real)
    ensures d >= 0.0
  {
    RunningPeak(base, s) - (base + Sum(s))
  }

  /** One drawdown per amount, each taken after that amount. */
  function DrawdownSeries(base: real, s: seq<real>): (r: seq<real>)
    ensures |r| == |s|
    ensures forall i :: 0 <= i < |r| ==> r[i] >= 0.0
  {
    seq(|s|, i requires 0 <= i < |s| => Drawdown(base, s[..i + 1]))
  }

  /** The peak is the largest of the baseline and of every equity reached so far,
      and it is attained by one of them. */
  lemma {:induction false} PeakIsMaximum(base: real, s: seq<real>)
    ensures RunningPeak(base, s) >= base
    ensures forall j :: 0 <= j <= |s| ==> RunningPeak(base, s) >= base + Sum(s[..j])
    ensures RunningPeak(base, s) == base
            || exists j :: 1 <= j <= |s| && RunningPeak(base, s) == base + Sum(s[..j])
  {
    if s == [] {
      assert forall j :: 0 <= j <= |s| ==> s[..j] == [];
    } else {
      var n := |s|;
      var init := s[..n - 1];
      PeakIsMaximum(base, init);
      assert forall j :: 0 <= j <= n - 1 ==> init[..j] == s[..j];
      assert s[..n] == s;
      if RunningPeak(base, s) != base + Sum(s) {
        assert RunningPeak(base, s) == RunningPeak(base, init);
        if RunningPeak(base, init) != base {
          var j :| 1 <= j <= n - 1 && RunningPeak(base, init) == base + Sum(init[..j]);
          assert RunningPeak(base, s) == base + Sum(s[..j]);
        }
      }
    }
  }

  /** The peak never decreases as more amounts are taken in. */
  lemma {:induction false} PeakMonotone(base: real, s: seq<real>, j: nat, k: nat)
    requires j <= k <= |s|
    ensures RunningPeak(base, s[..j]) <= RunningPeak(base, s[..k])
    decreases k - j
  {
    if j < k {
      PeakMonotone(base, s, j, k - 1);
      assert s[..k][..k - 1] == s[..k - 1];
    }
  }

  /** The drawdown is zero exactly when the current equity is at or above the
      baseline and every equity reached before it, that is when it is the peak. */
  lemma DrawdownZeroIff(base: real, s: seq<real>)
    ensures Drawdown(base, s) == 0.0
            <==> base + Sum(s) >= base
                 && forall j :: 0 <= j <= |s| ==> base + Sum(s) >= base + Sum(s[..j])
  {
    PeakIsMaximum(base, s);
    assert s[..|s|] == s;
  }

  /** A worked example: amounts 100, -50, 80, -200, 30 from a zero baseline. */
  lemma DrawdownExample()
    ensures DrawdownSeries(0.0, [100.0, -50.0, 80.0, -200.0, 30.0]) == [0.0, 50.0, 0.0, 200.0, 170.0]
  {
    var s := [100.0, -50.0, 80.0, -200.0, 30.0];
    assert s[..1][..0] == [];
    assert s[..2][..1] == s[..1];
    assert s[..3][..2] == s[..2];
    assert s[..4][..3] == s[..3];
    assert s[..5][..4] == s[..4];
    assert Sum(s[..1]) == 100.0 && RunningPeak(0.0, s[..1]) == 100.0;
    assert Sum(s[..2]) == 50.0 && RunningPeak(0.0, s[..2]) == 100.0;
    assert Sum(s[..3]) == 130.0 && RunningPeak(0.0, s[..3]) == 130.0;
    assert Sum(s[..4]) == -70.0 && RunningPeak(0.0, s[..4]) == 130.0;
    assert Sum(s[..5]) == -40.0 && RunningPeak(0.0, s[..5]) == 130.0;
  }
}
