/** The scene state of the screensaver's main loop (screen.py): the list of curves, the
    index of the active one, and the pause flag, with one method per key or mouse
    command and one for the per-frame motion step. The pygame event dispatch, drawing,
    colours and the help screen are not part of this model. */
module Screensaver {
  import opened Geometry
  import opened Motion
  import opened Shapes

  /** `steps = 35`: the resolution every new curve starts with. The main loop never
      changes it; the resolution keys change the active curve's own `steps`. */
  const InitialSteps: int := 35

  class Scene {
    /** `knots`: the curves, in creation order. */
    var knots: seq<Knot>
    /** `idx`: the active curve, the one edit commands apply to. */
    var idx: int
    /** `pause`: while set, the points do not move. */
    var pause: bool

    /** At least one curve; the active one is the newest, so `knots[idx]` is always a
        valid index; the curves are distinct objects, each valid. */
    ghost predicate Valid()
      reads this, knots
    {
      |knots| >= 1 && idx == |knots| - 1
      && (forall i, j :: 0 <= i < j < |knots| ==> knots[i] != knots[j])
      && (forall i :: 0 <= i < |knots| ==> knots[i].Valid())
    }

    /** Start-up: one empty curve of resolution 35, active, paused. */
    constructor ()
      ensures Valid()
      ensures |knots| == 1 && idx == 0 && pause
      ensures fresh(knots[0])
      ensures knots[0].points == [] && knots[0].speeds == [] && knots[0].steps == InitialSteps
    {
      var k := new Knot(InitialSteps);
      knots := [k];
      idx := 0;
      pause := true;
    }

    /** R: restart with a single empty curve of resolution 35, active; the pause
        state is kept. */
    method Restart()
      requires Valid()
      modifies this
      ensures Valid()
      ensures |knots| == 1 && idx == 0 && pause == old(pause)
      ensures fresh(knots[0])
      ensures knots[0].points == [] && knots[0].speeds == [] && knots[0].steps == InitialSteps
    {
      var k := new Knot(InitialSteps);
      knots := [k];
      idx := 0;
    }

    /** P: pause or resume the motion. */
    method TogglePause()
      requires Valid()
      modifies this`pause
      ensures Valid()
      ensures pause == !old(pause)
    {
      pause := !pause;
    }

    /** N: append a new empty curve of resolution 35 and make it active. */
    method NewKnot()
      requires Valid()
      modifies this
      ensures Valid()
      ensures |knots| == |old(knots)| + 1 && knots[..|old(knots)|] == old(knots)
      ensures fresh(knots[idx])
      ensures knots[idx].points == [] && knots[idx].speeds == [] && knots[idx].steps == InitialSteps
      ensures idx == old(idx) + 1 && idx == |knots| - 1
      ensures pause == old(pause)
    {
      var k := new Knot(InitialSteps);
      knots := knots + [k];
      idx := idx + 1;
    }

    /** Mouse click: add a point with its speed to the active curve (the program draws
        the speed at random; here it is a parameter). */
    method AddPoint(point: Vec2d, speed: Vec2d)
      requires Valid()
      modifies knots[idx]
      ensures Valid()
      ensures knots[idx].points == old(knots[idx].points) + [point]
      ensures knots[idx].speeds == old(knots[idx].speeds) + [speed]
      ensures knots[idx].steps == old(knots[idx].steps)
    {
      knots[idx].AddPoint(point, speed);
    }

    /** D: delete the last point of the active curve, if it has any. */
    method DeleteLastPoint()
      requires Valid()
      modifies knots[idx]
      ensures Valid()
      ensures old(knots[idx].points) == [] ==> knots[idx].points == [] && knots[idx].speeds == []
      ensures old(knots[idx].points) != [] ==>
        knots[idx].points == old(knots[idx].points)[..|old(knots[idx].points)| - 1] &&
        knots[idx].speeds == old(knots[idx].speeds)[..|old(knots[idx].speeds)| - 1]
      ensures knots[idx].steps == old(knots[idx].steps)
    {
      knots[idx].DeleteLastPoint();
    }

    /** S (k = 2) and A (k = 0.5): scale the speeds of the active curve. */
    method ChangeSpeedActive(k: real)
      requires Valid()
      modifies knots[idx]
      ensures Valid()
      ensures knots[idx].speeds == Scaled(old(knots[idx].speeds), k)
      ensures knots[idx].points == old(knots[idx].points) && knots[idx].steps == old(knots[idx].steps)
    {
      knots[idx].ChangeSpeed(k);
    }

    /** Ctrl+S (k = 2) and Ctrl+A (k = 0.5): scale the speeds of every curve. */
    method ChangeSpeedAll(k: real)
      requires Valid()
      modifies knots
      ensures Valid()
      ensures forall m :: 0 <= m < |knots| ==>
        knots[m].speeds == Scaled(old(knots[m].speeds), k) &&
        knots[m].points == old(knots[m].points) && knots[m].steps == old(knots[m].steps)
    {
      var i := 0;
      while i < |knots|
        invariant 0 <= i <= |knots|
        invariant Valid()
        invariant forall m :: 0 <= m < i ==>
          knots[m].speeds == Scaled(old(knots[m].speeds), k) &&
          knots[m].points == old(knots[m].points) && knots[m].steps == old(knots[m].steps)
        invariant forall m :: i <= m < |knots| ==>
          knots[m].speeds == old(knots[m].speeds) &&
          knots[m].points == old(knots[m].points) && knots[m].steps == old(knots[m].steps)
      {
        knots[i].ChangeSpeed(k);
        i := i + 1;
      }
    }

    /** Num+: one more sample per segment on the active curve. */
    method MoreSteps()
      requires Valid()
      modifies knots[idx]
      ensures Valid()
      ensures knots[idx].steps == old(knots[idx].steps) + 1
      ensures knots[idx].points == old(knots[idx].points) && knots[idx].speeds == old(knots[idx].speeds)
    {
      knots[idx].steps := knots[idx].steps + 1;
    }

    /** Num-: one sample fewer per segment on the active curve, but never below 1. */
    method FewerSteps()
      requires Valid()
      modifies knots[idx]
      ensures Valid()
      ensures knots[idx].steps == if old(knots[idx].steps) > 1 then old(knots[idx].steps) - 1 else old(knots[idx].steps)
      ensures knots[idx].steps >= 1
      ensures knots[idx].points == old(knots[idx].points) && knots[idx].speeds == old(knots[idx].speeds)
    {
      knots[idx].steps := knots[idx].steps - if knots[idx].steps > 1 then 1 else 0;
    }

    /** One frame: unless paused, every curve's points move and bounce. */
    method Tick()
      requires Valid()
      modifies knots
      ensures Valid()
      ensures forall m :: 0 <= m < |knots| ==> knots[m].steps == old(knots[m].steps)
      ensures pause ==> forall m :: 0 <= m < |knots| ==>
        knots[m].points == old(knots[m].points) && knots[m].speeds == old(knots[m].speeds)
      ensures !pause ==> forall m :: 0 <= m < |knots| ==>
        knots[m].points == Moved(old(knots[m].points), old(knots[m].speeds)) &&
        knots[m].speeds == Bounced(knots[m].points, old(knots[m].speeds))
    {
      if !pause {
        var i := 0;
        while i < |knots|
          invariant 0 <= i <= |knots|
          invariant Valid()
          invariant forall m :: 0 <= m < |knots| ==> knots[m].steps == old(knots[m].steps)
          invariant forall m :: 0 <= m < i ==>
            knots[m].points == Moved(old(knots[m].points), old(knots[m].speeds)) &&
            knots[m].speeds == Bounced(knots[m].points, old(knots[m].speeds))
          invariant forall m :: i <= m < |knots| ==>
            knots[m].points == old(knots[m].points) && knots[m].speeds == old(knots[m].speeds)
        {
          knots[i].SetPoints();
          i := i + 1;
        }
      }
    }
  }
}
