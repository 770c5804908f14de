/** The motion rule of `Polyline` (screen.py): every control point moves by its speed
    once per frame and bounces off the edges of the 800 x 600 screen by flipping the
    sign of a speed component; speeds can be scaled by a factor. */
module Motion {
  import opened Geometry

  /** `SCREEN_DIM`: the width and height of the screen the points bounce in. */
  const ScreenWidth: real := 800.0
  const ScreenHeight: real := 600.0

  /** The speed of a point after the bounce check at its new position `p`: a component
      changes sign when that coordinate of `p` lies strictly outside the screen. */
  function Reflect(p: Vec2d, speed: Vec2d): Vec2d
  {
    Vec2d(if p.x > ScreenWidth || p.x < 0.0 then -speed.x else speed.x,
          if p.y > ScreenHeight || p.y < 0.0 then -speed.y else speed.y)
  }

  /** Every point moved by its own speed, with no clamping to the screen. */
  function Moved(points: seq<Vec2d>, speeds: seq<Vec2d>): seq<Vec2d>
    requires |points| == |speeds|
  {
    seq(|points|, i requires 0 <= i < |points| => Add(points[i], speeds[i]))
  }

  /** Every speed after the bounce check at the corresponding new position. */
  function Bounced(newPoints: seq<Vec2d>, speeds: seq<Vec2d>): seq<Vec2d>
    requires |newPoints| == |speeds|
  {
    seq(|speeds|, i requires 0 <= i < |speeds| => Reflect(newPoints[i], speeds[i]))
  }

  /** Every speed multiplied by `k`. */
  function Scaled(speeds: seq<Vec2d>, k: real): seq<Vec2d>
  {
    seq(|speeds|, i requires 0 <= i < |speeds| => Scale(speeds[i], k))
  }

  /** A moving speed component is negated exactly when the new coordinate lies strictly
      outside the screen; a point landing exactly on an edge keeps its speed. */
  lemma ReflectFlipsIffOutside(p: Vec2d, speed: Vec2d)
    ensures speed.x != 0.0 ==>
      (Reflect(p, speed).x == -speed.x <==> p.x > ScreenWidth || p.x < 0.0)
    ensures speed.y != 0.0 ==>
      (Reflect(p, speed).y == -speed.y <==> p.y > ScreenHeight || p.y < 0.0)
    ensures p.x == 0.0 || p.x == ScreenWidth ==> Reflect(p, speed).x == speed.x
    ensures p.y == 0.0 || p.y == ScreenHeight ==> Reflect(p, speed).y == speed.y
  {
  }

  /** A bounce changes direction only: each component keeps its magnitude, and checking
      twice at the same position gives the original speed back. */
  lemma ReflectPreservesMagnitude(p: Vec2d, speed: Vec2d)
    ensures Reflect(p, speed).x * Reflect(p, speed).x == speed.x * speed.x
    ensures Reflect(p, speed).y * Reflect(p, speed).y == speed.y * speed.y
    ensures Reflect(p, Reflect(p, speed)) == speed
  {
  }

  /** The soft bounce: a point with x on the screen that steps past the right edge has
      overshot by at most its speed, now heads left, and the next step brings x back to
      where it was; likewise for the left edge. */
  lemma SoftBounceX(p: Vec2d, speed: Vec2d)
    requires 0.0 <= p.x <= ScreenWidth
    ensures Add(p, speed).x > ScreenWidth ==>
      Add(p, speed).x - ScreenWidth <= speed.x && Reflect(Add(p, speed), speed).x < 0.0
    ensures Add(p, speed).x < 0.0 ==>
      -Add(p, speed).x <= -speed.x && Reflect(Add(p, speed), speed).x > 0.0
    ensures Add(p, speed).x > ScreenWidth || Add(p, speed).x < 0.0 ==>
      Add(Add(p, speed), Reflect(Add(p, speed), speed)).x == p.x
  {
  }

  /** The same soft bounce for the top and bottom edges. */
  lemma SoftBounceY(p: Vec2d, speed: Vec2d)
    requires 0.0 <= p.y <= ScreenHeight
    ensures Add(p, speed).y > ScreenHeight ==>
      Add(p, speed).y - ScreenHeight <= speed.y && Reflect(Add(p, speed), speed).y < 0.0
    ensures Add(p, speed).y < 0.0 ==>
      -Add(p, speed).y <= -speed.y && Reflect(Add(p, speed), speed).y > 0.0
    ensures Add(p, speed).y > ScreenHeight || Add(p, speed).y < 0.0 ==>
      Add(Add(p, speed), Reflect(Add(p, speed), speed)).y == p.y
  {
  }

  /** A point at (799, 300) with speed (5, 0) moves to (804, 300) and its x speed
      becomes -5 on the same frame. */
  lemma BounceAtRightEdge()
    ensures Moved([Vec2d(799.0, 300.0)], [Vec2d(5.0, 0.0)]) == [Vec2d(804.0, 300.0)]
    ensures Bounced([Vec2d(804.0, 300.0)], [Vec2d(5.0, 0.0)]) == [Vec2d(-5.0, 0.0)]
  {
    assert Moved([Vec2d(799.0, 300.0)], [Vec2d(5.0, 0.0)])[0] == Vec2d(804.0, 300.0);
    assert Bounced([Vec2d(804.0, 300.0)], [Vec2d(5.0, 0.0)])[0] == Vec2d(-5.0, 0.0);
  }

  /** Scaling all speeds by `j` and then by `k` is scaling them by `j * k`; scaling by a
      non-zero `k` and then by `1 / k` restores them, so doubling and then halving is
      the identity. */
  lemma ScaledCompose(speeds: seq<Vec2d>, j: real, k: real)
    ensures Scaled(Scaled(speeds, j), k) == Scaled(speeds, j * k)
    ensures k != 0.0 ==> Scaled(Scaled(speeds, k), 1.0 / k) == speeds
    ensures Scaled(Scaled(speeds, 2.0), 0.5) == speeds
  {
    forall i | 0 <= i < |speeds|
      ensures Scaled(Scaled(speeds, j), k)[i] == Scaled(speeds, j * k)[i]
      ensures k != 0.0 ==> Scaled(Scaled(speeds, k), 1.0 / k)[i] == speeds[i]
      ensures Scaled(Scaled(speeds, 2.0), 0.5)[i] == speeds[i]
    {
      ScaleScale(speeds[i], j, k);
      if k != 0.0 {
        ScaleInverse(speeds[i], k);
      }
      ScaleInverse(speeds[i], 2.0);
    }
  }
}
