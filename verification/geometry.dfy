/** Two-dimensional vectors (the `Vec2d` class of screen.py).
    Coordinates are exact reals: the program's floating-point rounding is
    deliberately abstracted away, so the algebraic identities below hold exactly. */
module Geometry {

  /** An immutable 2-D vector; every operation returns a new value. */
  datatype Vec2d = Vec2d(x: real, y: real)

  /** `a + b`, component-wise. */
  function Add(a: Vec2d, b: Vec2d): Vec2d
  {
    Vec2d(a.x + b.x, a.y + b.y)
  }

  /** `a - b`, component-wise. */
  function Sub(a: Vec2d, b: Vec2d): Vec2d
  {
    Vec2d(a.x - b.x, a.y - b.y)
  }

  /** `v * k`: scaling by a number. */
  function Scale(v: Vec2d, k: real): Vec2d
  {
    Vec2d(v.x * k, v.y * k)
  }

  /** `(p + q) * 0.5`, the midpoint expression the smoothing code writes out. */
  function Mid(p: Vec2d, q: Vec2d): Vec2d
  {
    Scale(Add(p, q), 0.5)
  }

  /** `v` lies in the axis-aligned box spanned by `lo` and `hi`. */
  predicate InBox(v: Vec2d, lo: Vec2d, hi: Vec2d)
  {
    lo.x <= v.x <= hi.x && lo.y <= v.y <= hi.y
  }

  /** Subtraction undoes addition, and addition undoes subtraction. */
  lemma AddSubInverse(a: Vec2d, b: Vec2d)
    ensures Sub(Add(a, b), b) == a
    ensures Add(Sub(a, b), b) == a
  {
  }

  /** Scaling by `j` and then by `k` is scaling by `j * k`. */
  lemma ScaleScale(v: Vec2d, j: real, k: real)
    ensures Scale(Scale(v, j), k) == Scale(v, j * k)
  {
    assert v.x * j * k == v.x * (j * k);
    assert v.y * j * k == v.y * (j * k);
  }

  /** Scaling by a non-zero `k` and then by `1 / k` gives the vector back. */
  lemma ScaleInverse(v: Vec2d, k: real)
    requires k != 0.0
    ensures Scale(Scale(v, k), 1.0 / k) == v
  {
    assert k * (1.0 / k) == 1.0;
    assert v.x * k * (1.0 / k) == v.x * (k * (1.0 / k));
    assert v.y * k * (1.0 / k) == v.y * (k * (1.0 / k));
  }

  /** A product of two non-negative numbers is non-negative. */
  lemma MulNonneg(x: real, y: real)
    requires x >= 0.0 && y >= 0.0
    ensures x * y >= 0.0
  {
  }

  /** A convex blend `u * a + w * (1 - a)` of two numbers of [lo, hi] stays in [lo, hi]. */
  lemma BlendInRange(u: real, w: real, a: real, lo: real, hi: real)
    requires 0.0 <= a <= 1.0
    requires lo <= u <= hi && lo <= w <= hi
    ensures lo <= u * a + w * (1.0 - a) <= hi
  {
    MulNonneg(u - lo, a);
    MulNonneg(hi - u, a);
    MulNonneg(w - lo, 1.0 - a);
    MulNonneg(hi - w, 1.0 - a);
    assert u * a + w * (1.0 - a) - lo == (u - lo) * a + (w - lo) * (1.0 - a);
    assert hi - (u * a + w * (1.0 - a)) == (hi - u) * a + (hi - w) * (1.0 - a);
  }

  /** `(p + d) a + (g + d)(1 - a) == p a + g (1 - a) + d`: shifting both ends of a
      blend by `d` shifts the blend by `d`. */
  lemma BlendShift(p: Vec2d, g: Vec2d, d: Vec2d, a: real)
    ensures Add(Scale(Add(p, d), a), Scale(Add(g, d), 1.0 - a))
         == Add(Add(Scale(p, a), Scale(g, 1.0 - a)), d)
  {
    BlendShiftScalar(p.x, g.x, d.x, a);
    BlendShiftScalar(p.y, g.y, d.y, a);
  }

  /** The same identity in one coordinate. */
  lemma BlendShiftScalar(p: real, g: real, d: real, a: real)
    ensures (p + d) * a + (g + d) * (1.0 - a) == p * a + g * (1.0 - a) + d
  {
  }

  /** A blend `u * a + w * (1 - a)` of two points of a box, with 0 <= a <= 1, is in the box;
      in particular so is the midpoint of two points of the box. */
  lemma BlendInBox(u: Vec2d, w: Vec2d, a: real, lo: Vec2d, hi: Vec2d)
    requires 0.0 <= a <= 1.0
    requires InBox(u, lo, hi) && InBox(w, lo, hi)
    ensures InBox(Add(Scale(u, a), Scale(w, 1.0 - a)), lo, hi)
    ensures InBox(Mid(u, w), lo, hi)
  {
    BlendInRange(u.x, w.x, a, lo.x, hi.x);
    BlendInRange(u.y, w.y, a, lo.y, hi.y);
  }
}
