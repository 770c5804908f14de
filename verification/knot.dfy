/** A smoothed closed curve (`Knot`, with the `Polyline` state and methods it inherits,
    screen.py): two parallel lists of control points and their speeds, the resolution
    `steps`, the edit and motion operations that change them in place, and the
    derivation of the curve's points. */
module Shapes {
  import opened Geometry
  import opened Smoothing
  import opened Motion

  class Knot {
    var points: seq<Vec2d>
    var speeds: seq<Vec2d>
    /** Number of curve points sampled per control vertex. */
    var steps: int

    /** Every point has its speed, and the resolution is at least 1. */
    ghost predicate Valid()
      reads this
    {
      |points| == |speeds| && steps >= 1
    }

    /** `Knot(steps)`: a curve with no control points. */
    constructor (steps: int)
      requires steps >= 1
      ensures Valid()
      ensures points == [] && speeds == [] && this.steps == steps
    {
      points := [];
      speeds := [];
      this.steps := steps;
    }

    /** `add_point`: appends one point with its speed. */
    method AddPoint(point: Vec2d, speed: Vec2d)
      requires Valid()
      modifies this
      ensures Valid()
      ensures points == old(points) + [point] && speeds == old(speeds) + [speed]
      ensures steps == old(steps)
    {
      points := points + [point];
      speeds := speeds + [speed];
    }

    /** `delete_last_point`: removes the last point and its speed; nothing happens when
        there are no points. */
    method DeleteLastPoint()
      requires Valid()
      modifies this
      ensures Valid()
      ensures old(points) == [] ==> points == [] && speeds == []
      ensures old(points) != [] ==>
        points == old(points)[..|old(points)| - 1] && speeds == old(speeds)[..|old(speeds)| - 1]
      ensures steps == old(steps)
    {
      if points != [] {
        points := points[..|points| - 1];
        speeds := speeds[..|speeds| - 1];
      }
    }

    /** `set_points`: one frame of motion. Each point moves by its speed (no clamping);
        then each speed component flips sign when the new coordinate is strictly off
        the screen. */
    method SetPoints()
      requires Valid()
      modifies this
      ensures Valid()
      ensures points == Moved(old(points), old(speeds))
      ensures speeds == Bounced(points, old(speeds))
      ensures steps == old(steps)
    {
      var i := 0;
      while i < |points|
        invariant 0 <= i <= |points| == |old(points)|
        invariant Valid() && steps == old(steps)
        invariant forall m :: 0 <= m < i ==>
          points[m] == Add(old(points)[m], old(speeds)[m]) && speeds[m] == Reflect(points[m], old(speeds)[m])
        invariant forall m :: i <= m < |points| ==> points[m] == old(points)[m] && speeds[m] == old(speeds)[m]
      {
        points := points[i := Add(points[i], speeds[i])];
        if points[i].x > ScreenWidth || points[i].x < 0.0 {
          speeds := speeds[i := Vec2d(-speeds[i].x, speeds[i].y)];
        }
        if points[i].y > ScreenHeight || points[i].y < 0.0 {
          speeds := speeds[i := Vec2d(speeds[i].x, -speeds[i].y)];
        }
        i := i + 1;
      }
    }

    /** `change_speed(k)`: multiplies both components of every speed by `k`. */
    method ChangeSpeed(k: real)
      requires Valid()
      modifies this
      ensures Valid()
      ensures speeds == Scaled(old(speeds), k)
      ensures points == old(points) && steps == old(steps)
    {
      var i := 0;
      while i < |speeds|
        invariant 0 <= i <= |speeds| == |old(speeds)|
        invariant Valid() && points == old(points) && steps == old(steps)
        invariant forall m :: 0 <= m < i ==> speeds[m] == Scale(old(speeds)[m], k)
        invariant forall m :: i <= m < |speeds| ==> speeds[m] == old(speeds)[m]
      {
        speeds := speeds[i := Vec2d(speeds[i].x * k, speeds[i].y)];
        speeds := speeds[i := Vec2d(speeds[i].x, speeds[i].y * k)];
        i := i + 1;
      }
    }

    /** `get_points(base)`: samples the blend of `base` at `steps` parameters
        `i * (1 / steps)`, i = 0 .. steps - 1. */
    method GetPoints(base: seq<Vec2d>) returns (res: seq<Vec2d>)
      requires Valid() && |base| >= 1
      ensures res == Samples(base, steps)
    {
      var alpha := 1.0 / steps as real;
      res := [];
      var i := 0;
      while i < steps
        invariant 0 <= i <= steps
        invariant res == Samples(base, steps)[..i]
      {
        ghost var all := Samples(base, steps);
        assert Param(i, steps) == i as real * alpha;
        assert all[i] == GetPoint(base, Param(i, steps));
        assert all[..i + 1] == all[..i] + [all[i]];
        res := res + [GetPoint(base, i as real * alpha)];
        i := i + 1;
      }
    }

    /** `get_knot()`: no points below three control points; otherwise, for each window
        i = -2 .. N-3 (negative indices counting from the end), the samples of the triple
        [midpoint of points[i] and points[i+1], points[i+1], midpoint of points[i+1] and
        points[i+2]], concatenated. Reads the curve and changes nothing. */
    method GetKnot() returns (res: seq<Vec2d>)
      requires Valid()
      ensures res == KnotCurve(points, steps)
    {
      if |points| < 3 {
        return [];
      }
      res := [];
      var i := -2;
      while i < |points| - 2
        invariant -2 <= i <= |points| - 2
        invariant res == Segments(points, steps, i + 2)
      {
        var ptn := [Scale(Add(At(points, i), At(points, i + 1)), 0.5),
                    At(points, i + 1),
                    Scale(Add(At(points, i + 1), At(points, i + 2)), 0.5)];
        var segment := GetPoints(ptn);
        res := res + segment;
        i := i + 1;
      }
    }
  }
}
