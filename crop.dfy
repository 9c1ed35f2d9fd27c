/**
 * The crop gesture of the photo editor: the `cropping` flag and the optional start
 * and end points, changed by the crop button and by the pointer handlers of the
 * drawing surface. A release with both points recorded commits the rectangle between
 * them as the new surface size and clears the gesture.
 */
module Crop {
  import opened Wrappers

  /** A point in surface-local coordinates. */
  datatype Point = Point(x: int, y: int)

  /** Width and height of the drawing surface; nothing forces them to be positive. */
  datatype Size = Size(width: int, height: int)

  datatype Gesture = Gesture(cropping: bool, start: Option<Point>, end: Option<Point>)

  /** No crop armed and no points recorded: the component's initial gesture state. */
  const Idle: Gesture := Gesture(false, None, None)

  /**
   * What every transition keeps: an end point is only recorded after a start point,
   * and a start point only while cropping is armed.
   */
  predicate WellFormed(g: Gesture) {
    && (g.end.Some? ==> g.start.Some?)
    && (g.start.Some? ==> g.cropping)
  }

  /** The crop button. */
  function Arm(g: Gesture): Gesture {
    g.(cropping := true)
  }

  /** Pointer-down: when armed, record the start and forget any end point. */
  function PointerDown(g: Gesture, p: Point): Gesture {
    if g.cropping then g.(start := Some(p), end := None) else g
  }

  /** Pointer-move: when armed and started, record the end point. */
  function PointerMove(g: Gesture, p: Point): Gesture {
    if g.cropping && g.start.Some? then g.(end := Some(p)) else g
  }

  /**
   * The rectangle a release selects: end minus start, present only when the flag
   * and both points are. The component does not check its sign or its area.
   */
  function Selection(g: Gesture): (r: Option<Size>)
    ensures WellFormed(g) ==> (r.Some? <==> g.end.Some?)
  {
    if g.cropping && g.start.Some? && g.end.Some? then
      Some(Size(g.end.value.x - g.start.value.x, g.end.value.y - g.start.value.y))
    else
      None
  }

  /**
   * Whether the host's image-data read accepts a rectangle of this size: the HTML
   * Standard's `getImageData()` throws an "IndexSizeError" when the width or the
   * height is zero, and accepts negative ones (they select leftward or upward).
   */
  predicate ImageDataAccepts(s: Size) {
    s.width != 0 && s.height != 0
  }

  /**
   * The surface size a release commits: the selection, unless reading it throws,
   * which ends the handler before it resizes the surface or clears the gesture.
   */
  function Committed(g: Gesture): (r: Option<Size>)
    ensures WellFormed(g) ==>
      (r.Some? <==> g.end.Some? && g.end.value.x != g.start.value.x && g.end.value.y != g.start.value.y)
    ensures r.Some? ==> Selection(g) == r
  {
    match Selection(g)
    case Some(s) => if ImageDataAccepts(s) then Some(s) else None
    case None => None
  }

  /** Pointer-up: a committing release clears the gesture; any other leaves it alone. */
  function PointerUp(g: Gesture): Gesture {
    if Committed(g).Some? then Idle else g
  }

  // ---------------------------------------------------------------------------
  // Runs of events.
  // ---------------------------------------------------------------------------

  datatype Event = CropButton | DownAt(p: Point) | MoveTo(p: Point) | Release

  function Next(g: Gesture, e: Event): (r: Gesture)
    ensures WellFormed(g) ==> WellFormed(r)
  {
    match e
    case CropButton => Arm(g)
    case DownAt(p) => PointerDown(g, p)
    case MoveTo(p) => PointerMove(g, p)
    case Release => PointerUp(g)
  }

  /** The sizes one event commits: none, or the selection of a committing release. */
  function CommitOf(g: Gesture, e: Event): seq<Size> {
    if e.Release? && Committed(g).Some? then [Committed(g).value] else []
  }

  /** The gesture after a run of events. */
  function Run(g: Gesture, es: seq<Event>): Gesture
    decreases |es|
  {
    if es == [] then g else Run(Next(g, es[0]), es[1..])
  }

  /** The sizes committed during a run of events, in order. */
  function Commits(g: Gesture, es: seq<Event>): seq<Size>
    decreases |es|
  {
    if es == [] then [] else CommitOf(g, es[0]) + Commits(Next(g, es[0]), es[1..])
  }

  /** Pointer moves through the given points. */
  function Moves(ps: seq<Point>): (es: seq<Event>)
    ensures |es| == |ps|
    ensures forall i :: 0 <= i < |ps| ==> es[i] == MoveTo(ps[i])
  {
    if ps == [] then [] else [MoveTo(ps[0])] + Moves(ps[1..])
  }

  // ---------------------------------------------------------------------------
  // Properties.
  // ---------------------------------------------------------------------------

  /** A committing release leaves the gesture idle, so a second release commits nothing. */
  lemma ReleaseClears(g: Gesture)
    ensures Committed(g).Some? ==> PointerUp(g) == Idle
    ensures Committed(g).Some? ==> Selection(PointerUp(g)).None?
    ensures PointerUp(PointerUp(g)) == PointerUp(g)
  {
  }

  /** Every reachable gesture is well formed. */
  lemma {:induction false} RunPreservesWellFormed(g: Gesture, es: seq<Event>)
    requires WellFormed(g)
    ensures WellFormed(Run(g, es))
    decreases |es|
  {
    if es != [] {
      RunPreservesWellFormed(Next(g, es[0]), es[1..]);
    }
  }

  /** Running two runs one after the other is running their concatenation. */
  lemma {:induction false} RunAppend(g: Gesture, xs: seq<Event>, ys: seq<Event>)
    ensures Run(g, xs + ys) == Run(Run(g, xs), ys)
    ensures Commits(g, xs + ys) == Commits(g, xs) + Commits(Run(g, xs), ys)
    decreases |xs|
  {
    if xs == [] {
      assert xs + ys == ys;
    } else {
      assert (xs + ys)[0] == xs[0];
      assert (xs + ys)[1..] == xs[1..] + ys;
      RunAppend(Next(g, xs[0]), xs[1..], ys);
    }
  }

  /**
   * Without the crop button, pointer events change nothing and commit nothing:
   * an unarmed surface ignores presses, drags and releases.
   */
  lemma {:induction false} UnarmedPointerIgnored(g: Gesture, es: seq<Event>)
    requires !g.cropping
    requires forall i :: 0 <= i < |es| ==> !es[i].CropButton?
    ensures Run(g, es) == g
    ensures Commits(g, es) == []
    decreases |es|
  {
    if es != [] {
      assert !es[0].CropButton?;
      assert Next(g, es[0]) == g;
      UnarmedPointerIgnored(g, es[1..]);
    }
  }

  /** While armed and started, a run of moves only ever replaces the end point. */
  lemma {:induction false} MovesTrackLastPoint(g: Gesture, ps: seq<Point>)
    requires g.cropping && g.start.Some?
    ensures Commits(g, Moves(ps)) == []
    ensures Run(g, Moves(ps)) == if ps == [] then g else g.(end := Some(ps[|ps| - 1]))
    decreases |ps|
  {
    if ps != [] {
      var es := Moves(ps);
      assert es[1..] == Moves(ps[1..]);
      MovesTrackLastPoint(g.(end := Some(ps[0])), ps[1..]);
    }
  }

  /**
   * A complete gesture — crop button, press at `a`, drag through `ps`, release —
   * whose last point differs from `a` in both coordinates commits exactly one size,
   * the last drag point minus `a`, and ends idle, whatever the gesture state before it.
   */
  lemma DragCommits(g: Gesture, a: Point, ps: seq<Point>)
    requires ps != [] && ps[|ps| - 1].x != a.x && ps[|ps| - 1].y != a.y
    ensures var es := [CropButton, DownAt(a)] + Moves(ps) + [Release];
      && Run(g, es) == Idle
      && Commits(g, es) == [Size(ps[|ps| - 1].x - a.x, ps[|ps| - 1].y - a.y)]
  {
    DragReleases(g, a, ps);
  }

  /**
   * A drag that ends level with its start point, or straight above or below it,
   * selects a rectangle of zero area: reading it throws, so the release commits
   * nothing and the gesture stays armed with both points.
   */
  lemma FlatDragCommitsNothing(g: Gesture, a: Point, ps: seq<Point>)
    requires ps != [] && (ps[|ps| - 1].x == a.x || ps[|ps| - 1].y == a.y)
    ensures var es := [CropButton, DownAt(a)] + Moves(ps) + [Release];
      && Run(g, es) == Gesture(true, Some(a), Some(ps[|ps| - 1]))
      && Commits(g, es) == []
  {
    DragReleases(g, a, ps);
  }

  /** Crop button, press at `a` and a drag through `ps` leave the gesture armed from `a` to the last point. */
  lemma DragReleases(g: Gesture, a: Point, ps: seq<Point>)
    requires ps != []
    ensures var es := [CropButton, DownAt(a)] + Moves(ps) + [Release];
      var armed := Gesture(true, Some(a), Some(ps[|ps| - 1]));
      && Run(g, es) == PointerUp(armed)
      && Commits(g, es) == CommitOf(armed, Release)
  {
    var pre := [CropButton, DownAt(a)];
    var g1 := Gesture(true, Some(a), None);
    assert Run(g, pre) == g1 && Commits(g, pre) == [] by {
      assert pre[1..] == [DownAt(a)] && [DownAt(a)][1..] == [];
      assert Run(g, pre) == Run(Arm(g), [DownAt(a)]) == Run(g1, []);
      assert Commits(g, pre) == Commits(Arm(g), [DownAt(a)]) == Commits(g1, []);
    }
    MovesTrackLastPoint(g1, ps);
    RunAppend(g, pre, Moves(ps));
    RunAppend(g, pre + Moves(ps), [Release]);
    var armed := Gesture(true, Some(a), Some(ps[|ps| - 1]));
    assert [Release][1..] == [];
    assert Run(armed, [Release]) == PointerUp(armed);
    assert Commits(armed, [Release]) == CommitOf(armed, Release);
  }

  /**
   * A press and release without a drag records no end point, so it commits nothing
   * and the gesture stays armed with its start point.
   */
  lemma ClickWithoutDragCommitsNothing(g: Gesture, a: Point)
    ensures Run(g, [CropButton, DownAt(a), Release]) == Gesture(true, Some(a), None)
    ensures Commits(g, [CropButton, DownAt(a), Release]) == []
  {
    var es := [CropButton, DownAt(a), Release];
    var g1 := Gesture(true, Some(a), None);
    assert es[1..] == [DownAt(a), Release];
    assert es[1..][1..] == [Release] && [Release][1..] == [];
    assert Run(g, es) == Run(Arm(g), [DownAt(a), Release]) == Run(g1, [Release]) == Run(g1, []);
    assert Commits(g, es) == Commits(Arm(g), [DownAt(a), Release]) == Commits(g1, [Release]);
  }

  /** Dragging from (10,10) to (60,40) commits a 50 by 30 surface. */
  lemma DragScenario()
    ensures Commits(Idle, [CropButton, DownAt(Point(10, 10)), MoveTo(Point(60, 40)), Release])
            == [Size(50, 30)]
  {
    DragCommits(Idle, Point(10, 10), [Point(60, 40)]);
    assert Moves([Point(60, 40)]) == [MoveTo(Point(60, 40))];
    assert [CropButton, DownAt(Point(10, 10))] + [MoveTo(Point(60, 40))] + [Release]
        == [CropButton, DownAt(Point(10, 10)), MoveTo(Point(60, 40)), Release];
  }

  /**
   * Dragging up and to the left commits a negative size; dragging straight down
   * selects a zero width, which is not committed and leaves the gesture as it was.
   */
  lemma DegenerateSizes()
    ensures Committed(Gesture(true, Some(Point(60, 40)), Some(Point(10, 10)))) == Some(Size(-50, -30))
    ensures Selection(Gesture(true, Some(Point(10, 10)), Some(Point(10, 40)))) == Some(Size(0, 30))
    ensures Committed(Gesture(true, Some(Point(10, 10)), Some(Point(10, 40)))).None?
    ensures PointerUp(Gesture(true, Some(Point(10, 10)), Some(Point(10, 40))))
            == Gesture(true, Some(Point(10, 10)), Some(Point(10, 40)))
  {
  }
}
