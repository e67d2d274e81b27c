/**
 * The repair of strokes with non-positive pressures,
 * `LoadHandler::fixNullPressureValues`: the pressures are cut to one fewer
 * than the points, and every maximal run of positive pressures, from index
 * `k` up to `j`, becomes a portion of the stroke: the points `k .. j - 1`
 * carrying those pressures, followed by point `j` as it was.
 *
 * A pressure is positive when it is greater than 0; a NaN, which the source
 * also counts as not positive, is outside this model's reals.
 */
module PressurePortions {

  import opened Document

  /** The first index from `i` on whose pressure is positive, or `|ps|`. */
  function NextPositive(ps: seq<real>, i: nat): (k: nat)
    requires i <= |ps|
    ensures i <= k <= |ps| && (k < |ps| ==> ps[k] > 0.0)
    ensures forall t :: i <= t < k ==> ps[t] <= 0.0
    decreases |ps| - i
  {
    if i == |ps| || ps[i] > 0.0 then i else NextPositive(ps, i + 1)
  }

  /** The first index from `i` on whose pressure is not positive, or `|ps|`. */
  function NextNonPositive(ps: seq<real>, i: nat): (j: nat)
    requires i <= |ps|
    ensures i <= j <= |ps| && (j < |ps| ==> ps[j] <= 0.0)
    ensures forall t :: i <= t < j ==> ps[t] > 0.0
    decreases |ps| - i
  {
    if i == |ps| || ps[i] <= 0.0 then i else NextNonPositive(ps, i + 1)
  }

  /** The points `k .. j - 1` with the pressures of the same indices (the `std::transform`). */
  function Weighted(pts: seq<Point>, ps: seq<real>, k: nat, j: nat): (r: seq<Point>)
    requires k <= j <= |ps| && |ps| < |pts|
    ensures |r| == j - k
    ensures forall t :: 0 <= t < j - k ==> r[t] == Point(pts[k + t].x, pts[k + t].y, ps[k + t])
    decreases j - k
  {
    if j == k then [] else Weighted(pts, ps, k, j - 1) + [Point(pts[j - 1].x, pts[j - 1].y, ps[j - 1])]
  }

  /** The portions from the run of positive pressures starting at `k` (or none, at `|ps|`). */
  function PortionsFrom(pts: seq<Point>, ps: seq<real>, k: nat): seq<seq<Point>>
    requires |pts| == |ps| + 1 && k <= |ps| && (k < |ps| ==> ps[k] > 0.0)
    decreases |ps| - k
  {
    if k == |ps| then []
    else
      var j := NextNonPositive(ps, k);
      [Weighted(pts, ps, k, j) + [pts[j]]] + if j == |ps| then [] else PortionsFrom(pts, ps, NextPositive(ps, j))
  }

  /** The pressures cut to one fewer than the `n` points. */
  function Truncated(ps: seq<real>, n: nat): (r: seq<real>)
    requires 1 <= n <= |ps| + 1
    ensures |r| == n - 1 && r == ps[..n - 1]
  {
    if |ps| >= n then ps[..n - 1] else ps
  }

  /** The portions `fixNullPressureValues` cuts a stroke of points `pts` into. */
  function Portions(pts: seq<Point>, ps: seq<real>): seq<seq<Point>>
    requires 2 <= |pts| <= |ps| + 1
  {
    var q := Truncated(ps, |pts|);
    PortionsFrom(pts, q, NextPositive(q, 0))
  }

  // ---------------------------------------------------------------------
  // The reference: the points with positive pressure, in order

  /** The points from index `i` on whose pressure is positive, carrying it. */
  function Kept(pts: seq<Point>, ps: seq<real>, i: nat): seq<Point>
    requires i <= |ps| < |pts|
    decreases |ps| - i
  {
    if i == |ps| then []
    else (if ps[i] > 0.0 then [Point(pts[i].x, pts[i].y, ps[i])] else []) + Kept(pts, ps, i + 1)
  }

  /** The points of the portions without the last point of each: those that carry a pressure. */
  function Bodies(portions: seq<seq<Point>>): seq<Point>
  {
    if portions == [] then []
    else
      var p := portions[0];
      (if p == [] then [] else p[..|p| - 1]) + Bodies(portions[1..])
  }

  /** Every portion has at least two points, all but the last with a positive pressure, the last an original point. */
  predicate WellCut(pts: seq<Point>, portions: seq<seq<Point>>)
  {
    forall i :: 0 <= i < |portions| ==>
      |portions[i]| >= 2 && portions[i][|portions[i]| - 1] in pts &&
      forall t :: 0 <= t < |portions[i]| - 1 ==> portions[i][t].z > 0.0
  }

  /** Nothing kept over a stretch of non-positive pressures. */
  lemma {:induction false} KeptSkips(pts: seq<Point>, ps: seq<real>, i: nat, k: nat)
    requires i <= k <= |ps| < |pts| && forall t :: i <= t < k ==> ps[t] <= 0.0
    ensures Kept(pts, ps, i) == Kept(pts, ps, k)
    decreases k - i
  {
    if i < k {
      KeptSkips(pts, ps, i + 1, k);
    }
  }

  /** Over a run of positive pressures, every point is kept. */
  lemma {:induction false} KeptRun(pts: seq<Point>, ps: seq<real>, k: nat, j: nat)
    requires k <= j <= |ps| < |pts| && forall t :: k <= t < j ==> ps[t] > 0.0
    ensures Kept(pts, ps, k) == Weighted(pts, ps, k, j) + Kept(pts, ps, j)
    decreases j - k
  {
    if k < j {
      KeptRun(pts, ps, k + 1, j);
      WeightedCons(pts, ps, k, j);
      KeptCons(pts, ps, k);
      hide *;
      var x, w := Point(pts[k].x, pts[k].y, ps[k]), Weighted(pts, ps, k + 1, j);
      assert [x] + (w + Kept(pts, ps, j)) == ([x] + w) + Kept(pts, ps, j);
    } else {
      assert Weighted(pts, ps, k, j) == [];
    }
  }

  /** A run of weighted points starts with its first point. */
  lemma WeightedCons(pts: seq<Point>, ps: seq<real>, k: nat, j: nat)
    requires k < j <= |ps| < |pts|
    ensures Weighted(pts, ps, k, j) == [Point(pts[k].x, pts[k].y, ps[k])] + Weighted(pts, ps, k + 1, j)
  {
    hide Weighted;
    var w := Weighted(pts, ps, k + 1, j);
    assert Weighted(pts, ps, k, j) == [Point(pts[k].x, pts[k].y, ps[k])] + w;
  }

  /** A point with positive pressure is the first one kept. */
  lemma KeptCons(pts: seq<Point>, ps: seq<real>, k: nat)
    requires k < |ps| < |pts| && ps[k] > 0.0
    ensures Kept(pts, ps, k) == [Point(pts[k].x, pts[k].y, ps[k])] + Kept(pts, ps, k + 1)
  {
  }

  /**
   * The portions are well cut, and their pressured points are exactly the
   * points with positive pressure, in their order.
   */
  lemma {:induction false} PortionsFromCover(pts: seq<Point>, ps: seq<real>, k: nat)
    requires |pts| == |ps| + 1 && k <= |ps| && (k < |ps| ==> ps[k] > 0.0)
    ensures WellCut(pts, PortionsFrom(pts, ps, k))
    ensures Bodies(PortionsFrom(pts, ps, k)) == Kept(pts, ps, k)
    decreases |ps| - k
  {
    hide *;
    if k < |ps| {
      var j := NextNonPositive(ps, k);
      var rest := if j == |ps| then [] else PortionsFrom(pts, ps, NextPositive(ps, j));
      FirstPortion(pts, ps, k);
      KeptRun(pts, ps, k, j);
      if j < |ps| {
        var k2 := NextPositive(ps, j);
        PortionsFromCover(pts, ps, k2);
        KeptSkips(pts, ps, j, k2);
      } else {
        NothingLeft(pts, ps);
      }
      PortionCons(pts, Weighted(pts, ps, k, j), pts[j], rest);
    } else {
      NothingLeft(pts, ps);
    }
  }

  /** The first portion from `k` on is its run of positive pressures closed by the point after it. */
  lemma FirstPortion(pts: seq<Point>, ps: seq<real>, k: nat)
    requires |pts| == |ps| + 1 && k < |ps| && ps[k] > 0.0
    ensures var j := NextNonPositive(ps, k);
      PortionsFrom(pts, ps, k) ==
        [Weighted(pts, ps, k, j) + [pts[j]]] + if j == |ps| then [] else PortionsFrom(pts, ps, NextPositive(ps, j))
  {
  }

  /** At the end of the pressures there are no portions and nothing is kept. */
  lemma NothingLeft(pts: seq<Point>, ps: seq<real>)
    requires |pts| == |ps| + 1
    ensures PortionsFrom(pts, ps, |ps|) == [] && Kept(pts, ps, |ps|) == [] && WellCut(pts, []) && Bodies([]) == []
  {
  }

  /** A run of pressured points closed by an original point, put before well-cut portions. */
  lemma PortionCons(pts: seq<Point>, w: seq<Point>, last: Point, rest: seq<seq<Point>>)
    requires w != [] && last in pts && WellCut(pts, rest) && forall t :: 0 <= t < |w| ==> w[t].z > 0.0
    ensures WellCut(pts, [w + [last]] + rest)
    ensures Bodies([w + [last]] + rest) == w + Bodies(rest)
  {
    var p := w + [last];
    assert ([p] + rest)[1..] == rest;
    assert p[..|p| - 1] == w;
    forall i | 0 <= i < |[p] + rest|
      ensures |([p] + rest)[i]| >= 2 && ([p] + rest)[i][|([p] + rest)[i]| - 1] in pts
      ensures forall t :: 0 <= t < |([p] + rest)[i]| - 1 ==> ([p] + rest)[i][t].z > 0.0
    {
      if i > 0 {
        assert ([p] + rest)[i] == rest[i - 1];
      }
    }
  }

  /** No pressure from index `i` on is positive exactly when nothing is kept. */
  lemma {:induction false} KeptEmpty(pts: seq<Point>, ps: seq<real>, i: nat)
    requires i <= |ps| < |pts|
    ensures Kept(pts, ps, i) == [] <==> forall t :: i <= t < |ps| ==> ps[t] <= 0.0
    decreases |ps| - i
  {
    if i < |ps| {
      KeptEmpty(pts, ps, i + 1);
    }
  }

  /** `k .. j - 1` is a maximal run of positive pressures: none before it or right after it is positive. */
  predicate IsRun(ps: seq<real>, k: nat, j: nat)
  {
    && k < j <= |ps| && (forall t :: k <= t < j ==> ps[t] > 0.0)
    && (j == |ps| || ps[j] <= 0.0) && (k == 0 || ps[k - 1] <= 0.0)
  }

  /** Every portion is the points of a maximal run of positive pressures, carrying them, closed by the original point after the run. */
  ghost predicate AllRuns(pts: seq<Point>, ps: seq<real>, portions: seq<seq<Point>>)
  {
    forall i :: 0 <= i < |portions| ==>
      exists k: nat, j: nat :: IsRun(ps, k, j) && |ps| < |pts| && portions[i] == Weighted(pts, ps, k, j) + [pts[j]]
  }

  /** A maximal run put before portions that are all maximal runs. */
  lemma RunsCons(pts: seq<Point>, ps: seq<real>, k: nat, j: nat, rest: seq<seq<Point>>)
    requires IsRun(ps, k, j) && |ps| < |pts| && AllRuns(pts, ps, rest)
    ensures AllRuns(pts, ps, [Weighted(pts, ps, k, j) + [pts[j]]] + rest)
  {
    var all := [Weighted(pts, ps, k, j) + [pts[j]]] + rest;
    forall i | 0 <= i < |all|
      ensures exists k: nat, j: nat :: IsRun(ps, k, j) && |ps| < |pts| && all[i] == Weighted(pts, ps, k, j) + [pts[j]]
    {
      if i > 0 {
        assert all[i] == rest[i - 1];
      }
    }
  }

  /** From the start of a maximal run on, every portion is a maximal run closed by the point after it. */
  lemma {:induction false} PortionsFromRuns(pts: seq<Point>, ps: seq<real>, k: nat)
    requires |pts| == |ps| + 1 && k <= |ps| && (k < |ps| ==> ps[k] > 0.0) && (k == 0 || ps[k - 1] <= 0.0)
    ensures AllRuns(pts, ps, PortionsFrom(pts, ps, k))
    decreases |ps| - k
  {
    if k < |ps| {
      var j := NextNonPositive(ps, k);
      FirstPortion(pts, ps, k);
      var rest := if j == |ps| then [] else PortionsFrom(pts, ps, NextPositive(ps, j));
      if j < |ps| {
        PortionsFromRuns(pts, ps, NextPositive(ps, j));
      }
      RunsCons(pts, ps, k, j, rest);
    } else {
      NothingLeft(pts, ps);
    }
  }

  /**
   * `fixNullPressureValues` cuts the stroke into portions, each the points
   * of a maximal run of positive pressures among the first `|pts| - 1`,
   * carrying them, closed by the original point after the run; their
   * pressured points are all the points with positive pressure, in order;
   * there are no portions exactly when no such pressure is positive, and
   * then the stroke is deleted.
   */
  lemma PortionsCover(pts: seq<Point>, ps: seq<real>)
    requires 2 <= |pts| <= |ps| + 1
    ensures AllRuns(pts, Truncated(ps, |pts|), Portions(pts, ps))
    ensures WellCut(pts, Portions(pts, ps))
    ensures Bodies(Portions(pts, ps)) == Kept(pts, Truncated(ps, |pts|), 0)
    ensures Portions(pts, ps) == [] <==> forall t :: 0 <= t < |pts| - 1 ==> ps[t] <= 0.0
  {
    var q := Truncated(ps, |pts|);
    var k := NextPositive(q, 0);
    PortionsFromCover(pts, q, k);
    PortionsFromRuns(pts, q, k);
    KeptSkips(pts, q, 0, k);
    KeptEmpty(pts, q, 0);
    if Portions(pts, ps) == [] {
      assert Bodies([]) == [];
    } else {
      assert k < |q|;
    }
  }

  // ---------------------------------------------------------------------
  // The loops of `fixNullPressureValues`

  lemma Regroup<T>(a: seq<T>, x: T, b: seq<T>)
    ensures a + ([x] + b) == (a + [x]) + b
  {
  }

  /** `std::find_if(from, end, v > 0)`. */
  method FindPositive(ps: seq<real>, from: nat) returns (k: nat)
    requires from <= |ps|
    ensures k == NextPositive(ps, from)
  {
    k := from;
    while k < |ps| && ps[k] <= 0.0
      invariant from <= k <= |ps| && NextPositive(ps, from) == NextPositive(ps, k)
      decreases |ps| - k
    {
      k := k + 1;
    }
  }

  /** `std::find_if(from, end, v <= 0 || isnan(v))`. */
  method FindNonPositive(ps: seq<real>, from: nat) returns (j: nat)
    requires from <= |ps|
    ensures j == NextNonPositive(ps, from)
  {
    j := from;
    while j < |ps| && ps[j] > 0.0
      invariant from <= j <= |ps| && NextNonPositive(ps, from) == NextNonPositive(ps, j)
      decreases |ps| - j
    {
      j := j + 1;
    }
  }

  /** The `std::transform` of one run: the points `k .. j - 1` with their pressures. */
  method WeightRun(pts: seq<Point>, ps: seq<real>, k: nat, j: nat) returns (run: seq<Point>)
    requires k <= j <= |ps| && |ps| < |pts|
    ensures run == Weighted(pts, ps, k, j)
  {
    run := [];
    var t := k;
    while t < j
      invariant k <= t <= j && run == Weighted(pts, ps, k, t)
      decreases j - t
    {
      run := run + [Point(pts[t].x, pts[t].y, ps[t])];
      t := t + 1;
    }
  }

  /**
   * The first half of `fixNullPressureValues`: cut the pressures, then
   * collect one portion per run of positive pressures.
   */
  method CutPortions(pts: seq<Point>, pressures: seq<real>) returns (portions: seq<seq<Point>>)
    requires 2 <= |pts| <= |pressures| + 1
    ensures portions == Portions(pts, pressures)
  {
    var ps := pressures;
    if |ps| >= |pts| {
      ps := ps[..|pts| - 1];
    }
    assert ps == Truncated(pressures, |pts|);
    var nextPositive := FindPositive(ps, 0);
    portions := [];
    while nextPositive != |ps|
      invariant nextPositive <= |ps| && (nextPositive < |ps| ==> ps[nextPositive] > 0.0)
      invariant portions + PortionsFrom(pts, ps, nextPositive) == Portions(pts, pressures)
      decreases |ps| - nextPositive
    {
      var nextNonPositive := FindNonPositive(ps, nextPositive);
      var run := WeightRun(pts, ps, nextPositive, nextNonPositive);
      var portion := run + [pts[nextNonPositive]];
      FirstPortion(pts, ps, nextPositive);
      ghost var rest := if nextNonPositive == |ps| then [] else PortionsFrom(pts, ps, NextPositive(ps, nextNonPositive));
      Regroup(portions, portion, rest);
      portions := portions + [portion];
      if nextNonPositive == |ps| {
        assert rest == [];
        break;
      }
      nextPositive := FindPositive(ps, nextNonPositive);
    }
  }
}
