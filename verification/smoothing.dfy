/** The smoothing algorithm of `Knot` (screen.py): the recursive blend `get_point`,
    the sampling of one segment `get_points`, and the closed curve `get_knot`, here as
    functions of the control points and the resolution `steps`. */
module Smoothing {
  import opened Geometry

  /** `get_point(points, alpha, deg)`: the last point of `points[..deg + 1]` weighted by
      `alpha`, plus the blend of the points before it weighted by `1 - alpha`. */
  function GetPointAt(points: seq<Vec2d>, alpha: real, deg: nat): Vec2d
    requires deg < |points|
    decreases deg
  {
    if deg == 0 then points[0]
    else Add(Scale(points[deg], alpha), Scale(GetPointAt(points, alpha, deg - 1), 1.0 - alpha))
  }

  /** `get_point(points, alpha)`: the call without `deg`, which starts at the last point. */
  function GetPoint(points: seq<Vec2d>, alpha: real): Vec2d
    requires |points| >= 1
  {
    GetPointAt(points, alpha, |points| - 1)
  }

  /** A one-point list blends to that point, whatever `alpha` is. */
  lemma GetPointSingle(points: seq<Vec2d>, alpha: real)
    requires |points| == 1
    ensures GetPoint(points, alpha) == points[0]
  {
  }

  /** At `alpha = 0` the blend of any non-empty prefix is the first point. */
  lemma {:induction false} GetPointAtZero(points: seq<Vec2d>, deg: nat)
    requires deg < |points|
    ensures GetPointAt(points, 0.0, deg) == points[0]
  {
    if deg > 0 {
      GetPointAtZero(points, deg - 1);
    }
  }

  /** At `alpha = 0` the blend of any non-empty list is its first point, and at
      `alpha = 1` it is its last point. */
  lemma GetPointEnds(points: seq<Vec2d>)
    requires |points| >= 1
    ensures GetPoint(points, 0.0) == points[0]
    ensures GetPoint(points, 1.0) == points[|points| - 1]
  {
    GetPointAtZero(points, |points| - 1);
  }

  /** Every point moved by `d`. */
  function Translated(points: seq<Vec2d>, d: Vec2d): seq<Vec2d>
  {
    seq(|points|, i requires 0 <= i < |points| => Add(points[i], d))
  }

  /** Moving every control point by `d` moves the blend by `d`: the weights of the
      blend sum to 1, for every list length and every `alpha`. */
  lemma {:induction false} GetPointAtTranslated(points: seq<Vec2d>, d: Vec2d, alpha: real, deg: nat)
    requires deg < |points|
    ensures GetPointAt(Translated(points, d), alpha, deg) == Add(GetPointAt(points, alpha, deg), d)
  {
    if deg > 0 {
      GetPointAtTranslated(points, d, alpha, deg - 1);
      var moved := Translated(points, d);
      var g := GetPointAt(points, alpha, deg - 1);
      assert GetPointAt(moved, alpha, deg)
          == Add(Scale(Add(points[deg], d), alpha), Scale(Add(g, d), 1.0 - alpha));
      BlendShift(points[deg], g, d, alpha);
    }
  }

  /** For `0 <= alpha <= 1` the blend of points lying in a box lies in that box. */
  lemma {:induction false} GetPointAtInBox(points: seq<Vec2d>, alpha: real, deg: nat, lo: Vec2d, hi: Vec2d)
    requires deg < |points| && 0.0 <= alpha <= 1.0
    requires forall i :: 0 <= i < |points| ==> InBox(points[i], lo, hi)
    ensures InBox(GetPointAt(points, alpha, deg), lo, hi)
  {
    if deg > 0 {
      GetPointAtInBox(points, alpha, deg - 1, lo, hi);
      BlendInBox(points[deg], GetPointAt(points, alpha, deg - 1), alpha, lo, hi);
    }
  }

  /** For three control points the blend is `A(1-a)^2 + B a(1-a) + C a`. */
  lemma GetPointTriple(a: Vec2d, b: Vec2d, c: Vec2d, t: real)
    ensures GetPoint([a, b, c], t)
         == Add(Add(Scale(a, (1.0 - t) * (1.0 - t)), Scale(b, t * (1.0 - t))), Scale(c, t))
  {
    var inner := Add(Scale(b, t), Scale(a, 1.0 - t));
    assert GetPointAt([a, b, c], t, 1) == inner;
    assert GetPoint([a, b, c], t) == Add(Scale(c, t), Scale(inner, 1.0 - t));
    TripleExpand(a, b, c, t);
  }

  /** The two-level recursion for three points, multiplied out. */
  lemma TripleExpand(a: Vec2d, b: Vec2d, c: Vec2d, t: real)
    ensures Add(Scale(c, t), Scale(Add(Scale(b, t), Scale(a, 1.0 - t)), 1.0 - t))
         == Add(Add(Scale(a, (1.0 - t) * (1.0 - t)), Scale(b, t * (1.0 - t))), Scale(c, t))
  {
    TripleExpandWith(a, b, c, t, 1.0 - t);
  }

  /** `TripleExpand` with the weight `1 - t` written as `s`. */
  lemma TripleExpandWith(a: Vec2d, b: Vec2d, c: Vec2d, t: real, s: real)
    ensures Add(Scale(c, t), Scale(Add(Scale(b, t), Scale(a, s)), s))
         == Add(Add(Scale(a, s * s), Scale(b, t * s)), Scale(c, t))
  {
    TripleScalar(a.x, b.x, c.x, t, s);
    TripleScalar(a.y, b.y, c.y, t, s);
  }

  /** One coordinate of `TripleExpandWith`. */
  lemma TripleScalar(a: real, b: real, c: real, t: real, s: real)
    ensures c * t + (b * t + a * s) * s == a * (s * s) + b * (t * s) + c * t
  {
    assert (b * t + a * s) * s == b * t * s + a * s * s;
  }

  /** The textbook quadratic Bezier curve `A(1-t)^2 + 2B t(1-t) + C t^2`. */
  function QuadraticBezier(a: Vec2d, b: Vec2d, c: Vec2d, t: real): Vec2d
  {
    Add(Add(Scale(a, (1.0 - t) * (1.0 - t)), Scale(b, 2.0 * t * (1.0 - t))), Scale(c, t * t))
  }

  /** Strictly inside the parameter range, the three-point blend coincides with the
      quadratic Bezier curve exactly when the middle and last control points are equal. */
  lemma TripleVersusBezier(a: Vec2d, b: Vec2d, c: Vec2d, t: real)
    requires 0.0 < t < 1.0
    ensures GetPoint([a, b, c], t) == QuadraticBezier(a, b, c, t) <==> b == c
  {
    GetPointTriple(a, b, c, t);
    BezierGapVec(a, b, c, t);
    // the blend is the Bezier point shifted by t(1 - t)(c - b)
    var d := Scale(Sub(c, b), t * (1.0 - t));
    MulPos(t, 1.0 - t);
    ScaleZero(Sub(c, b), t * (1.0 - t));
    ShiftZero(QuadraticBezier(a, b, c, t), d);
  }

  /** The three-point blend is the Bezier point shifted by `t(1 - t)(c - b)`. */
  lemma BezierGapVec(a: Vec2d, b: Vec2d, c: Vec2d, t: real)
    ensures Add(Add(Scale(a, (1.0 - t) * (1.0 - t)), Scale(b, t * (1.0 - t))), Scale(c, t))
         == Add(QuadraticBezier(a, b, c, t), Scale(Sub(c, b), t * (1.0 - t)))
  {
    BezierGap(a.x, b.x, c.x, t);
    BezierGap(a.y, b.y, c.y, t);
  }

  /** In one coordinate: the three-point blend minus the Bezier curve is t(1 - t)(c - b). */
  lemma BezierGap(a: real, b: real, c: real, t: real)
    ensures a * ((1.0 - t) * (1.0 - t)) + b * (t * (1.0 - t)) + c * t
         == a * ((1.0 - t) * (1.0 - t)) + b * (2.0 * t * (1.0 - t)) + c * (t * t) + (c - b) * (t * (1.0 - t))
  {
  }

  /** A non-zero multiple of a vector is zero only when the vector is. */
  lemma ScaleZero(v: Vec2d, w: real)
    requires w > 0.0
    ensures Scale(v, w) == Vec2d(0.0, 0.0) <==> v == Vec2d(0.0, 0.0)
  {
    if v.x != 0.0 {
      NonzeroProduct(w, v.x);
    }
    if v.y != 0.0 {
      NonzeroProduct(w, v.y);
    }
  }

  /** Shifting `q` by `d` leaves it in place only when `d` is zero, and `c - b` is zero
      only when `b == c`. */
  lemma ShiftZero(q: Vec2d, d: Vec2d)
    ensures Add(q, d) == q <==> d == Vec2d(0.0, 0.0)
  {
  }

  /** A product of two positive numbers is positive. */
  lemma MulPos(x: real, y: real)
    requires x > 0.0 && y > 0.0
    ensures x * y > 0.0
  {
  }

  /** A product of a positive and a non-zero number is non-zero. */
  lemma NonzeroProduct(x: real, y: real)
    requires x > 0.0 && y != 0.0
    ensures x * y != 0.0
  {
  }

  /** The parameter of the j-th sample, `j * (1 / steps)` as the sampling loop computes it. */
  function Param(j: int, steps: int): real
    requires steps >= 1
  {
    j as real * (1.0 / steps as real)
  }

  /** Multiplying by `1 / s` is dividing by `s`. */
  lemma ReciprocalScale(x: real, s: real)
    requires s >= 1.0
    ensures x * (1.0 / s) == x / s
  {
  }

  /** The sample parameters cover the half-open range [0, 1): the first is 0 and none reaches 1. */
  lemma ParamRange(j: int, steps: int)
    requires steps >= 1 && 0 <= j < steps
    ensures 0.0 <= Param(j, steps) < 1.0
    ensures j == 0 ==> Param(j, steps) == 0.0
    ensures Param(j, steps) == j as real / steps as real
  {
    ReciprocalScale(j as real, steps as real);
    assert 0.0 <= j as real / steps as real < 1.0;
  }

  /** `get_points(base)`: `steps` blends of `base`, at parameters `j / steps`. */
  function Samples(base: seq<Vec2d>, steps: int): seq<Vec2d>
    requires |base| >= 1 && steps >= 1
  {
    seq(steps, j requires 0 <= j < steps => GetPoint(base, Param(j, steps)))
  }

  /** A segment has exactly `steps` points; the j-th is the blend at `j / steps`, a
      parameter in [0, 1), and the first is the first control point. */
  lemma SamplesShape(base: seq<Vec2d>, steps: int)
    requires |base| >= 1 && steps >= 1
    ensures |Samples(base, steps)| == steps
    ensures forall j :: 0 <= j < steps ==>
      Samples(base, steps)[j] == GetPoint(base, Param(j, steps)) && 0.0 <= Param(j, steps) < 1.0
      && Param(j, steps) == j as real / steps as real
    ensures Samples(base, steps)[0] == base[0]
  {
    forall j | 0 <= j < steps
      ensures 0.0 <= Param(j, steps) < 1.0 && Param(j, steps) == j as real / steps as real
    {
      ParamRange(j, steps);
    }
    ParamRange(0, steps);
    GetPointEnds(base);
  }

  /** Every sample of control points lying in a box lies in that box. */
  lemma SamplesInBox(base: seq<Vec2d>, steps: int, lo: Vec2d, hi: Vec2d)
    requires |base| >= 1 && steps >= 1
    requires forall i :: 0 <= i < |base| ==> InBox(base[i], lo, hi)
    ensures forall j :: 0 <= j < |Samples(base, steps)| ==> InBox(Samples(base, steps)[j], lo, hi)
  {
    forall j | 0 <= j < steps
      ensures InBox(Samples(base, steps)[j], lo, hi)
    {
      ParamRange(j, steps);
      GetPointAtInBox(base, Param(j, steps), |base| - 1, lo, hi);
    }
  }

  /** `points[i]` with Python's indexing: a negative `i` counts from the end. */
  function At(points: seq<Vec2d>, i: int): Vec2d
    requires -|points| <= i < |points|
  {
    if i < 0 then points[i + |points|] else points[i]
  }

  /** Python's indexing is the wrap-around `(i + N) % N`. */
  lemma AtIsWrapped(points: seq<Vec2d>, i: int)
    requires -|points| <= i < |points|
    ensures 0 <= (i + |points|) % |points| < |points|
    ensures At(points, i) == points[(i + |points|) % |points|]
  {
    var n := |points|;
    if i < 0 {
      assert (i + n) % n == i + n;
    } else {
      assert i + n == 1 * n + i;
      assert (i + n) % n == i;
    }
  }

  /** The control triple of window `i` (i = -2 .. N-3): the midpoint of the edge into
      vertex `i + 1`, the vertex itself, and the midpoint of the edge out of it. */
  function Triple(points: seq<Vec2d>, i: int): seq<Vec2d>
    requires |points| >= 3 && -2 <= i <= |points| - 3
  {
    [Mid(At(points, i), At(points, i + 1)), At(points, i + 1), Mid(At(points, i + 1), At(points, i + 2))]
  }

  /** The samples of the first `n` windows (i = -2 .. n-3), concatenated in order. */
  function Segments(points: seq<Vec2d>, steps: int, n: nat): seq<Vec2d>
    requires |points| >= 3 && steps >= 1 && n <= |points|
  {
    if n == 0 then [] else Segments(points, steps, n - 1) + Samples(Triple(points, n - 3), steps)
  }

  /** `get_knot()`: no curve below three control points, otherwise the samples of all
      N windows around the closed polygon. */
  function KnotCurve(points: seq<Vec2d>, steps: int): seq<Vec2d>
    requires steps >= 1
  {
    if |points| < 3 then [] else Segments(points, steps, |points|)
  }

  /** `k * steps + j` with j < steps lies below `n * steps` when k < n. */
  lemma FlatIndexBound(k: int, j: int, n: int, steps: int)
    requires 0 <= k < n && 0 <= j < steps
    ensures 0 <= k * steps + j < n * steps
    ensures k * steps + j < (k + 1) * steps <= n * steps
  {
    MulSucc(k, steps);
    MulMonotone(k + 1, n, steps);
    MulMonotone(0, k, steps);
  }

  /** `(k + 1) * s == k * s + s`. */
  lemma MulSucc(k: int, s: int)
    ensures (k + 1) * s == k * s + s
  {
  }

  /** Multiplying by a non-negative number keeps the order. */
  lemma MulMonotone(a: int, b: int, s: int)
    requires a <= b && s >= 0
    ensures a * s <= b * s
  {
    assert b * s - a * s == (b - a) * s;
  }

  /** The first `n` windows hold `n * steps` points. */
  lemma {:induction false} SegmentsLength(points: seq<Vec2d>, steps: int, n: nat)
    requires |points| >= 3 && steps >= 1 && n <= |points|
    ensures |Segments(points, steps, n)| == n * steps
  {
    if n > 0 {
      SegmentsLength(points, steps, n - 1);
      SamplesShape(Triple(points, n - 3), steps);
      assert (n - 1) * steps + steps == n * steps;
    }
  }

  /** Among the first `n` windows, the point at `k * steps + j` is the j-th sample of
      window `k - 2`. */
  lemma {:induction false} SegmentsAt(points: seq<Vec2d>, steps: int, n: nat, k: int, j: int)
    requires |points| >= 3 && steps >= 1 && n <= |points|
    requires 0 <= k < n && 0 <= j < steps
    ensures 0 <= k * steps + j < |Segments(points, steps, n)|
    ensures Segments(points, steps, n)[k * steps + j] == GetPoint(Triple(points, k - 2), Param(j, steps))
  {
    SegmentsLength(points, steps, n);
    SegmentsLength(points, steps, n - 1);
    FlatIndexBound(k, j, n, steps);
    var prev := Segments(points, steps, n - 1);
    var last := Samples(Triple(points, n - 3), steps);
    SamplesShape(Triple(points, n - 3), steps);
    if k < n - 1 {
      SegmentsAt(points, steps, n - 1, k, j);
      assert (prev + last)[k * steps + j] == prev[k * steps + j];
    } else {
      assert k * steps == |prev|;
      assert (prev + last)[k * steps + j] == last[j];
    }
  }

  /** A curve of N >= 3 control points has exactly N * steps points, and none otherwise. */
  lemma KnotCurveLength(points: seq<Vec2d>, steps: int)
    requires steps >= 1
    ensures |KnotCurve(points, steps)| == if |points| < 3 then 0 else |points| * steps
  {
    if |points| >= 3 {
      SegmentsLength(points, steps, |points|);
    }
  }

  /** Segment k of the curve (points k * steps .. (k + 1) * steps - 1) samples the triple
      [midpoint(p[k-2], p[k-1]), p[k-1], midpoint(p[k-1], p[k])], indices taken mod N, so
      segment 0 has the last control point in the middle. */
  lemma KnotCurveAt(points: seq<Vec2d>, steps: int, k: int, j: int)
    requires steps >= 1 && |points| >= 3
    requires 0 <= k < |points| && 0 <= j < steps
    ensures k * steps + j < |KnotCurve(points, steps)|
    ensures KnotCurve(points, steps)[k * steps + j] == GetPoint(
      [ Mid(points[(k - 2 + |points|) % |points|], points[(k - 1 + |points|) % |points|]),
        points[(k - 1 + |points|) % |points|],
        Mid(points[(k - 1 + |points|) % |points|], points[k]) ],
      Param(j, steps))
  {
    SegmentsAt(points, steps, |points|, k, j);
    AtIsWrapped(points, k - 2);
    AtIsWrapped(points, k - 1);
  }

  /** The first point of a curve is the midpoint of the last control edge
      (from p[N-2] to p[N-1]). */
  lemma KnotCurveFirst(points: seq<Vec2d>, steps: int)
    requires steps >= 1 && |points| >= 3
    ensures |KnotCurve(points, steps)| > 0
    ensures KnotCurve(points, steps)[0] == Mid(points[|points| - 2], points[|points| - 1])
  {
    SegmentsAt(points, steps, |points|, 0, 0);
    assert 0 * steps + 0 == 0;
    ParamRange(0, steps);
    GetPointEnds(Triple(points, -2));
  }

  /** The window that follows window `i` around the closed polygon. */
  function NextWindow(n: int, i: int): int
  {
    if i == n - 3 then -2 else i + 1
  }

  /** The segments join up into a closed loop: the end (alpha = 1) of each window's blend
      is the start (alpha = 0) of the next window's blend, the last window included. */
  lemma SegmentsJoin(points: seq<Vec2d>, i: int)
    requires |points| >= 3 && -2 <= i <= |points| - 3
    ensures -2 <= NextWindow(|points|, i) <= |points| - 3
    ensures GetPoint(Triple(points, i), 1.0) == GetPoint(Triple(points, NextWindow(|points|, i)), 0.0)
  {
    GetPointEnds(Triple(points, i));
    GetPointEnds(Triple(points, NextWindow(|points|, i)));
  }

  /** Each control triple of points lying in a box lies in that box. */
  lemma TripleInBox(points: seq<Vec2d>, i: int, lo: Vec2d, hi: Vec2d)
    requires |points| >= 3 && -2 <= i <= |points| - 3
    requires forall m :: 0 <= m < |points| ==> InBox(points[m], lo, hi)
    ensures forall m :: 0 <= m < 3 ==> InBox(Triple(points, i)[m], lo, hi)
  {
    BlendInBox(At(points, i), At(points, i + 1), 0.5, lo, hi);
    BlendInBox(At(points, i + 1), At(points, i + 2), 0.5, lo, hi);
  }

  /** The samples of the first `n` windows lie in every box that holds the control points. */
  lemma {:induction false} SegmentsInBox(points: seq<Vec2d>, steps: int, n: nat, lo: Vec2d, hi: Vec2d)
    requires |points| >= 3 && steps >= 1 && n <= |points|
    requires forall m :: 0 <= m < |points| ==> InBox(points[m], lo, hi)
    ensures forall q :: 0 <= q < |Segments(points, steps, n)| ==> InBox(Segments(points, steps, n)[q], lo, hi)
  {
    if n > 0 {
      SegmentsInBox(points, steps, n - 1, lo, hi);
      TripleInBox(points, n - 3, lo, hi);
      SamplesInBox(Triple(points, n - 3), steps, lo, hi);
    }
  }

  /** The smoothed curve stays within the bounding box of its control points: every
      coordinate lies between the least and greatest of the control points' coordinates. */
  lemma KnotCurveInBox(points: seq<Vec2d>, steps: int, lo: Vec2d, hi: Vec2d)
    requires steps >= 1
    requires forall m :: 0 <= m < |points| ==> InBox(points[m], lo, hi)
    ensures forall q :: 0 <= q < |KnotCurve(points, steps)| ==> InBox(KnotCurve(points, steps)[q], lo, hi)
  {
    if |points| >= 3 {
      SegmentsInBox(points, steps, |points|, lo, hi);
    }
  }

  /** The square (100,100), (200,100), (200,200), (100,200) at resolution 35: 4 * 35 = 140
      curve points, starting at the midpoint (150, 200) of the closing edge; the last one
      is the blend of the last window at parameter 34/35, just short of that start. */
  lemma SquareCurve()
    ensures |KnotCurve([Vec2d(100.0, 100.0), Vec2d(200.0, 100.0), Vec2d(200.0, 200.0), Vec2d(100.0, 200.0)], 35)| == 140
    ensures KnotCurve([Vec2d(100.0, 100.0), Vec2d(200.0, 100.0), Vec2d(200.0, 200.0), Vec2d(100.0, 200.0)], 35)[0]
         == Vec2d(150.0, 200.0)
    ensures KnotCurve([Vec2d(100.0, 100.0), Vec2d(200.0, 100.0), Vec2d(200.0, 200.0), Vec2d(100.0, 200.0)], 35)[139]
         == Vec2d(1060.0 / 7.0, 9798.0 / 49.0)
  {
    var square := [Vec2d(100.0, 100.0), Vec2d(200.0, 100.0), Vec2d(200.0, 200.0), Vec2d(100.0, 200.0)];
    KnotCurveLength(square, 35);
    KnotCurveFirst(square, 35);
    SegmentsAt(square, 35, 4, 3, 34);
    assert Triple(square, 1) == [Vec2d(200.0, 150.0), Vec2d(200.0, 200.0), Vec2d(150.0, 200.0)];
    ReciprocalScale(34.0, 35.0);
    assert Param(34, 35) == 34.0 / 35.0;
    GetPointTriple(Vec2d(200.0, 150.0), Vec2d(200.0, 200.0), Vec2d(150.0, 200.0), 34.0 / 35.0);
  }
}
