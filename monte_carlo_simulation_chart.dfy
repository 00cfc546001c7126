/** The Monte Carlo simulation chart: three paths (conservative, modest, aggressive)
    over the yearly PnL, each step being the year's PnL plus a random variation of up
    to a fixed fraction of it, accumulated along the path. The random source is a
    sequence of draws in [0, 1), consumed in the order the chart asks for them. */
module MonteCarloSimulationChart {
  import opened Overview
  import opened Series

  const Paths: nat := 3

  /** `variationLevels[p]`. */
  function VariationLevel(p: nat): (level: real)
    requires p < Paths
    ensures 0.0 < level < 1.0
  {
    [0.05, 0.15, 0.3][p]
  }

  datatype SimPoint = SimPoint(year: string, value: real)

  /** The position in the draw sequence of the draw for year `idx` and path `p`: the
      chart draws once per (year, path), years outer and paths inner. */
  function DrawIndex(idx: nat, p: nat): nat
    requires p < Paths
  {
    idx * Paths + p
  }

  /** Different (year, path) pairs use different draws, so no draw is used twice. */
  lemma DrawIndexInjective(i: nat, p: nat, j: nat, q: nat)
    requires p < Paths && q < Paths
    requires i != j || p != q
    ensures DrawIndex(i, p) != DrawIndex(j, q)
  {
    if i < j {
      assert DrawIndex(i, p) < (i + 1) * Paths <= j * Paths <= DrawIndex(j, q);
    } else if j < i {
      assert DrawIndex(j, q) < (j + 1) * Paths <= i * Paths <= DrawIndex(i, p);
    }
  }

  lemma DrawIndexInRange(idx: nat, p: nat, n: nat)
    requires p < Paths && idx < n
    ensures DrawIndex(idx, p) < Paths * n
  {
  }

  /** Every draw lies in [0, 1), as `Math.random()` promises. */
  predicate ValidDraws(draws: seq<real>) {
    forall k :: 0 <= k < |draws| ==> 0.0 <= draws[k] < 1.0
  }

  /** The variation of one step: `pnl * (r * level * 2 - level)`. */
  function Variation(pnl: real, r: real, level: real): real {
    pnl * (r * level * 2.0 - level)
  }

  /** The value of path `p` at year `i`. */
  function PathValue(base: seq<YearOverview>, draws: seq<real>, p: nat, i: nat): real
    requires p < Paths && i < |base| && |draws| >= Paths * |base|
  {
    DrawIndexInRange(i, p, |base|);
    var prev := if i == 0 then 0.0 else PathValue(base, draws, p, i - 1);
    prev + base[i].pnl + Variation(base[i].pnl, draws[DrawIndex(i, p)], VariationLevel(p))
  }

  /** Years without PnL move no path, whatever the draws: the variation is a fraction
      of the year's PnL. */
  lemma {:induction false} FlatYearsStayAtZero(base: seq<YearOverview>, draws: seq<real>, p: nat, i: nat)
    requires p < Paths && i < |base| && |draws| >= Paths * |base|
    requires forall k :: 0 <= k <= i ==> base[k].pnl == 0.0
    ensures PathValue(base, draws, p, i) == 0.0
  {
    if i > 0 {
      FlatYearsStayAtZero(base, draws, p, i - 1);
    }
  }

  /** The first `n` points of path `p`. */
  function PathPoints(base: seq<YearOverview>, draws: seq<real>, p: nat, n: nat): (points: seq<SimPoint>)
    requires p < Paths && n <= |base| && |draws| >= Paths * |base|
    ensures |points| == n
  {
    if n == 0 then []
    else PathPoints(base, draws, p, n - 1) + [SimPoint(base[n - 1].year, PathValue(base, draws, p, n - 1))]
  }

  /** Point `i` of path `p` is year `i` with the path's value there. */
  lemma {:induction false} PathPointsAt(base: seq<YearOverview>, draws: seq<real>, p: nat, n: nat, i: nat)
    requires p < Paths && n <= |base| && |draws| >= Paths * |base|
    requires i < n
    ensures PathPoints(base, draws, p, n)[i] == SimPoint(base[i].year, PathValue(base, draws, p, i))
  {
    if i < n - 1 {
      PathPointsAt(base, draws, p, n - 1, i);
    }
  }

  /** One more point on path `p`, computed from the last point as the chart does. */
  lemma ExtendPath(base: seq<YearOverview>, draws: seq<real>, p: nat, idx: nat, path: seq<SimPoint>)
    requires p < Paths && idx < |base| && |draws| >= Paths * |base|
    requires path == PathPoints(base, draws, p, idx)
    ensures DrawIndex(idx, p) < |draws|
    ensures path + [SimPoint(base[idx].year,
                             (if idx == 0 then 0.0 else path[idx - 1].value) + base[idx].pnl
                             + Variation(base[idx].pnl, draws[DrawIndex(idx, p)], VariationLevel(p)))]
            == PathPoints(base, draws, p, idx + 1)
  {
    DrawIndexInRange(idx, p, |base|);
    if idx > 0 {
      PathPointsAt(base, draws, p, idx, idx - 1);
    }
  }

  /** `generateSimulations`: for each year in order and each of the three paths, one
      draw, and the new point is the path's previous value plus the year's PnL and
      the variation. */
  method GenerateSimulations(baseData: seq<YearOverview>, draws: seq<real>)
    returns (simulations: seq<seq<SimPoint>>)
    requires |draws| >= Paths * |baseData|
    ensures |simulations| == Paths
    ensures forall p :: 0 <= p < Paths ==> simulations[p] == PathPoints(baseData, draws, p, |baseData|)
  {
    simulations := [[], [], []];
    for idx := 0 to |baseData|
      invariant |simulations| == Paths
      invariant forall p :: 0 <= p < Paths ==> simulations[p] == PathPoints(baseData, draws, p, idx)
    {
      var point := baseData[idx];
      for p := 0 to Paths
        invariant |simulations| == Paths
        invariant forall q :: 0 <= q < Paths ==>
                    simulations[q] == PathPoints(baseData, draws, q, if q < p then idx + 1 else idx)
      {
        ExtendPath(baseData, draws, p, idx, simulations[p]);
        var r := draws[DrawIndex(idx, p)];
        var variation := Variation(point.pnl, r, VariationLevel(p));
        // `simulations[p][idx - 1]?.value || 0`: a previous value of 0 reads as 0 anyway.
        var prev := if idx == 0 then 0.0 else simulations[p][idx - 1].value;
        simulations := simulations[p := simulations[p] + [SimPoint(point.year, prev + point.pnl + variation)]];
      }
    }
  }

  /** A draw in [0, 1) moves the step by at most `level` times the size of the PnL,
      either way. */
  lemma VariationBounded(pnl: real, r: real, level: real)
    requires 0.0 <= r < 1.0 && level >= 0.0
    ensures -(level * Abs(pnl)) <= Variation(pnl, r, level) <= level * Abs(pnl)
  {
    var f := r * level * 2.0 - level;
    assert -level <= f <= level by {
      assert r * level <= level;
      assert r * level >= 0.0;
    }
    if pnl >= 0.0 {
      assert pnl * f <= pnl * level;
      assert pnl * f >= -(pnl * level);
    } else {
      assert pnl * f >= pnl * level;
      assert pnl * f <= -(pnl * level);
    }
  }

  /** With every draw at 0.5 there is no variation, and each path is the plain running
      sum of the PnL. */
  lemma {:induction false} MidpointDrawsGiveRunningSum(base: seq<YearOverview>, draws: seq<real>, p: nat, i: nat)
    requires p < Paths && i < |base| && |draws| >= Paths * |base|
    requires forall k :: 0 <= k < |draws| ==> draws[k] == 0.5
    ensures PathValue(base, draws, p, i) == Sum(PnlOf(base)[..i + 1])
  {
    SumStep(PnlOf(base), i);
    if i > 0 {
      MidpointDrawsGiveRunningSum(base, draws, p, i - 1);
    } else {
      assert PnlOf(base)[..0] == [];
    }
  }

  lemma Distribute(level: real, x: real, y: real)
    ensures level * (x + y) == level * x + level * y
  {
  }

  /** Each path stays within its level times the running sum of PnL sizes of the plain
      running sum of the PnL, above or below. */
  lemma {:induction false} PathNearRunningSum(base: seq<YearOverview>, draws: seq<real>, p: nat, i: nat)
    requires p < Paths && i < |base| && |draws| >= Paths * |base|
    requires ValidDraws(draws)
    ensures -(VariationLevel(p) * SumAbs(PnlOf(base)[..i + 1]))
            <= PathValue(base, draws, p, i) - Sum(PnlOf(base)[..i + 1])
            <= VariationLevel(p) * SumAbs(PnlOf(base)[..i + 1])
  {
    var pnls := PnlOf(base);
    var level := VariationLevel(p);
    DrawIndexInRange(i, p, |base|);
    VariationBounded(base[i].pnl, draws[DrawIndex(i, p)], level);
    SumStep(pnls, i);
    if i > 0 {
      PathNearRunningSum(base, draws, p, i - 1);
    } else {
      assert pnls[..0] == [];
    }
    assert pnls[i] == base[i].pnl;
    Distribute(level, SumAbs(pnls[..i]), Abs(pnls[i]));
  }
}
