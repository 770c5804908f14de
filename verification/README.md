# Pygame screensaver: curve smoothing and point motion, in Dafny

The screensaver (`screen.py`) lets the user click control points onto an 800 x 600
screen. Each group of points forms a closed control polygon (a `Knot`), and its points
drift with their own speeds and bounce off the screen edges. The screensaver draws each
polygon as a smooth closed curve. This project models the engine under the drawing and
event code:

- `geometry.dfy`, module `Geometry`: the `Vec2d` value with `+`, `-` and scalar `*`.
  Coordinates are exact `real`s. Float rounding is abstracted away on purpose, so the
  algebraic identities hold exactly.
- `smoothing.dfy`, module `Smoothing`: the recursive blend `get_point`, the sampling
  of one segment `get_points`, and the closed curve `get_knot`, as functions
  (`GetPointAt`/`GetPoint`, `Samples`, `KnotCurve`), with lemmas about them.
- `motion.dfy`, module `Motion`: the bounce rule of `set_points` (`Reflect`, `Moved`,
  `Bounced`) and the speed scaling of `change_speed` (`Scaled`), with lemmas.
- `knot.dfy`, module `Shapes`: the class `Knot`. It holds the `points` and `speeds`
  lists and the resolution `steps`. Its methods update them in place the way the
  program's loops do. Each method is proved against the functions above.
- `scene.dfy`, module `Screensaver`: the main loop's state (`knots`, `idx`, `pause`).
  A class `Scene` has one method per key or mouse command and one per-frame `Tick`.
  Its invariant says that the active index is always the newest curve, so it is in range.

`Polyline` and `Knot` are one class here. The program only ever creates `Knot`s, and
`Knot` adds `steps` and the smoothing methods to the state and methods of `Polyline`.

The three-point blend computed by `get_point` is `A(1-a)^2 + B a(1-a) + C a`. It is
not the textbook quadratic Bezier curve `A(1-a)^2 + 2B a(1-a) + C a^2`.
`TripleVersusBezier` shows that the two agree strictly inside the parameter range
only when the middle and last control points coincide.

## Model

| member | source | states |
|---|---|---|
| Geometry.AddSubInverse | screen.py:16-22 | vector subtraction undoes addition and vice versa |
| Geometry.ScaleScale | screen.py:24-26 | scaling by j and then by k is scaling by j*k |
| Geometry.ScaleInverse | screen.py:24-26 | scaling by k != 0 and then by 1/k gives the vector back |
| Smoothing.GetPointSingle | screen.py:98-103 | a one-point list blends to that point for every alpha |
| Smoothing.GetPointAtZero | screen.py:98-105 | at alpha = 0 the blend up to any degree is the first point |
| Smoothing.GetPointEnds | screen.py:98-105 | for any non-empty list, alpha = 0 gives the first point and alpha = 1 the last |
| Smoothing.GetPointAtTranslated | screen.py:104-105 | moving all control points by d moves the blend by d, i.e. the blend weights sum to 1 for every list length |
| Smoothing.GetPointAtInBox | screen.py:98-105 | for 0 <= alpha <= 1 the blend of points inside a box stays inside that box (each coordinate between the inputs' min and max) |
| Smoothing.GetPointTriple | screen.py:98-105 | for [A, B, C] the blend is A(1-a)^2 + B a(1-a) + C a |
| Smoothing.TripleVersusBezier | screen.py:98-105 | for 0 < a < 1 the three-point blend equals the quadratic Bezier curve iff B == C |
| Smoothing.ParamRange | screen.py:109-112 | the sample parameters i*(1/steps) equal i/steps, lie in [0, 1), and the first is 0 |
| Smoothing.SamplesShape | screen.py:107-113 | get_points returns exactly steps points, the j-th is the blend at j*(1/steps) = j/steps < 1, the first is base[0] |
| Smoothing.SamplesInBox | screen.py:107-113 | every sample of control points inside a box lies in that box |
| Smoothing.AtIsWrapped | screen.py:123-127 | Python's negative indexing on the windows' indices is the wrap-around (i + N) % N |
| Smoothing.KnotCurveLength | screen.py:115-130 | get_knot returns no points below 3 control points, otherwise exactly N * steps points |
| Smoothing.KnotCurveAt | screen.py:123-129 | point k*steps + j is the j-th sample of [mid(p[k-2], p[k-1]), p[k-1], mid(p[k-1], p[k])], indices mod N, so segment 0 has the last point as middle control |
| Smoothing.KnotCurveFirst | screen.py:120-129 | the first curve point is the midpoint of p[N-2] and p[N-1] |
| Smoothing.SegmentsJoin | screen.py:123-129 | each segment's blend at alpha = 1 equals the next segment's at alpha = 0, the last window wrapping to the first, so the curve closes |
| Smoothing.KnotCurveInBox | screen.py:115-130 | every curve point lies in any box holding all control points |
| Smoothing.SquareCurve | screen.py:115-130 | the square (100,100)..(100,200) at steps 35 gives 140 points, the first (150, 200), the last (1060/7, 9798/49) |
| Motion.ReflectFlipsIffOutside | screen.py:62-65 | a non-zero speed component is negated iff the new coordinate is strictly outside [0, 800] (x) or [0, 600] (y); a point exactly on an edge keeps its speed |
| Motion.ReflectPreservesMagnitude | screen.py:62-65 | a bounce keeps each speed component's magnitude; bouncing twice at the same position restores the speed |
| Motion.SoftBounceX | screen.py:61-63 | a point on the screen that steps past the left or right edge overshoots by at most its speed, now heads back, and returns to its old x on the next step (no clamping) |
| Motion.SoftBounceY | screen.py:61-65 | the same for the top and bottom edges |
| Motion.BounceAtRightEdge | screen.py:60-65 | (799, 300) with speed (5, 0) moves to (804, 300) and its speed becomes (-5, 0) in the same frame |
| Motion.ScaledCompose | screen.py:67-71 | scaling speeds by j then k is scaling by j*k; by k != 0 then 1/k restores them; change_speed(2) then change_speed(0.5) is the identity |
| Shapes.Knot.constructor | screen.py:94-96 | a new curve has no points or speeds and the given resolution |
| Shapes.Knot.AddPoint | screen.py:46-48 | appends exactly one point and its speed; the lengths stay equal |
| Shapes.Knot.DeleteLastPoint | screen.py:50-53 | no-op on an empty curve; otherwise removes exactly the last point and speed, keeping the prefix |
| Shapes.Knot.SetPoints | screen.py:55-65 | every point becomes point + speed, unclamped; every speed becomes its bounce at the new position; lengths and steps unchanged |
| Shapes.Knot.ChangeSpeed | screen.py:67-71 | every speed is multiplied by k; points and steps unchanged |
| Shapes.Knot.GetPoints | screen.py:107-113 | the loop builds exactly the samples of the spec function Samples |
| Shapes.Knot.GetKnot | screen.py:115-130 | the window loop i = -2 .. N-3 builds exactly KnotCurve(points, steps) and changes nothing |
| Screensaver.Scene.constructor | screen.py:181-186 | start-up: one empty curve of resolution 35, idx = 0, paused |
| Screensaver.Scene.Restart | screen.py:202-206 | R: a single fresh empty curve of resolution 35 and idx = 0 |
| Screensaver.Scene.TogglePause | screen.py:208-209 | P flips pause |
| Screensaver.Scene.DeleteLastPoint | screen.py:211-212 | D deletes the active curve's last point, if any |
| Screensaver.Scene.NewKnot | screen.py:214-216 | N appends a fresh empty curve and keeps the old ones; idx grows by 1 and equals len(knots) - 1, so knots[idx] stays a valid index |
| Screensaver.Scene.ChangeSpeedActive | screen.py:218-234 | S / A scale the active curve's speeds by 2 / 0.5 |
| Screensaver.Scene.ChangeSpeedAll | screen.py:218-234 | Ctrl+S / Ctrl+A scale every curve's speeds, and nothing else changes |
| Screensaver.Scene.MoreSteps | screen.py:236-237 | Num+ increments the active curve's steps |
| Screensaver.Scene.FewerSteps | screen.py:238-240 | Num- decrements the active curve's steps when above 1, so steps never goes below 1 |
| Screensaver.Scene.AddPoint | screen.py:245-250 | a mouse click appends the point and a speed to the active curve |
| Screensaver.Scene.Tick | screen.py:265-267 | unless paused, every curve moves and bounces as in SetPoints; when paused nothing changes |

## Left out

- Drawing: `Polyline.draw_points`, `Polyline.draw_line`, `Knot.draw_line`, `draw_help`,
  display setup, `fill`, `flip` and quit. These only write to the pygame display.
- The pygame event loop and key dispatch. Each key's effect on the state is a method of
  `Scene`. F1 (help screen) and Esc / window close (end the loop) change no modelled state.
- Hue and colour cycling. It is cosmetic.
- The random speeds of a mouse click. The speed is a parameter of `Scene.AddPoint`.
- `Vec2d.__len__` (square root; its signature takes an extra argument, so `len(v)` fails)
  and `Vec2d.int_pair` (truncation to pixels, used only for drawing).
- Floating-point rounding. Coordinates are exact reals. With floats, for example,
  doubling and then halving restores a speed only up to rounding at the extremes.
- Aliasing of speed vectors, which the program mutates in place. Every call site
  creates fresh vectors, so speeds are values here, replaced by index.
- The two `knots[idx].points.clear()` calls after R act on a freshly created curve and
  change nothing, so `Restart` does not repeat them.
- A blend of an empty list: `Smoothing.GetPoint` requires a non-empty list. On an empty list the program
  sets `deg` to -1 and then raises IndexError at `points[deg]` (screen.py:104); its only caller,
  `get_knot`, always passes three points (screen.py:124-129).
- A resolution of 0: `Shapes.Knot.GetPoints` requires `steps >= 1` (through `Valid`). The program divides by
  `steps`, which starts at 35 and is never decremented below 1.
