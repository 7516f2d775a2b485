// The arc tracer without its sixteen octants: one quadrant, two rules, two
// ways to decide when the rule changes.
//
// A tracer looks at the circle from a frame that is turned so that the point
// is at (u, v) with u counting down from the radius to 0 and v counting up.
// `first` is the half of the quadrant where every tick moves v; in the other
// half every tick moves u.  `quadrant` counts the turns of the frame.
module ArcTracer {
  import opened Arithmetic

  datatype Tracer = Tracer(quadrant: nat, first: bool, u: int, v: int, err: int)

  // err is what is missing to the squared radius c of the target.
  ghost predicate OnCircle(c: int, p: Tracer) {
    p.err + p.u * p.u + p.v * p.v == c
  }

  // Counter-clockwise arcs change the rule at the diagonal, clockwise arcs
  // (seen in a mirror) just behind it.
  predicate Crossed(strict: bool, u: int, v: int) {
    if strict then v > u else v >= u
  }

  function DownU(p: Tracer): Tracer {
    p.(u := p.u - 1, err := p.err + 2 * p.u - 1)
  }

  function UpV(p: Tracer): Tracer {
    p.(v := p.v + 1, err := p.err - 2 * p.v - 1)
  }

  // The point after one tick, the labels left as they were.
  function Advance(p: Tracer): Tracer {
    if p.first then
      UpV(if p.err <= 2 * p.v - p.u then DownU(p) else p)
    else
      DownU(if p.err > p.v - 2 * p.u then UpV(p) else p)
  }

  function Turn(p: Tracer): Tracer {
    Tracer(p.quadrant + 1, true, p.v, -p.u, p.err)
  }

  // Has the tracer come to the end of its half quadrant?
  predicate AtEnd(strict: bool, p: Tracer) {
    if p.first then Crossed(strict, p.u, p.v) else p.u <= 0
  }

  function NextHalf(p: Tracer): Tracer {
    if p.first then p.(first := false) else Turn(p)
  }

  // Interrupt side: the change of rule is decided at the point reached.
  function LiveStep(strict: bool, p: Tracer): Tracer {
    var a := Advance(p);
    if AtEnd(strict, a) then NextHalf(a) else a
  }

  // Planner side: the change of rule is decided at the point left behind.
  function DryStep(strict: bool, p: Tracer): Tracer {
    var a := Advance(p);
    if AtEnd(strict, p) then NextHalf(a) else a
  }

  function Major(p: Tracer): int {
    if p.first then p.u else p.v
  }

  // Smallest squared target radius for which the tracers are compared.  Three
  // larger ones would be exceptions, but no target has them.
  const MIN_SQUARE := 65

  predicate Traceable(c: int) {
    c >= MIN_SQUARE && c != 86 && c != 87 && c != 114
  }

  // Within one step of the circle: on a row or column no other lattice point
  // could be meant.
  ghost predicate Window(p: Tracer) {
    2 - 2 * Major(p) <= p.err <= 2 * Major(p)
  }

  ghost predicate Labelled(c: int, strict: bool, p: Tracer) {
    && OnCircle(c, p)
    && 0 <= p.u && 0 <= p.v
    && (if p.first then !Crossed(strict, p.u, p.v)
        else 0 < p.u && Crossed(strict, p.u, p.v))
  }

  // Every point the interrupt visits: on the circle up to err, the label in
  // agreement with the half of the quadrant, err within reach of one step.
  ghost predicate Tracking(c: int, strict: bool, p: Tracer) {
    Labelled(c, strict, p) && Window(p)
  }

  // Clockwise arcs that start on an axis begin with u == 0 in the second half.
  ghost predicate AxisStart(c: int, strict: bool, p: Tracer) {
    && strict && !p.first && p.u == 0 && 0 < p.v
    && OnCircle(c, p)
    && 3 - 2 * p.v <= p.err <= 2 * p.v + 1
  }

  // A start may be one unit further inside: the first step makes up for it.
  ghost predicate Entering(c: int, strict: bool, p: Tracer) {
    Labelled(c, strict, p) && 2 - 2 * Major(p) <= p.err <= 2 * Major(p) + 1
  }

  ghost predicate Startable(c: int, strict: bool, p: Tracer) {
    Entering(c, strict, p) || AxisStart(c, strict, p)
  }

  lemma MajorBound(c: int, strict: bool, p: Tracer)
    requires Startable(c, strict, p)
    requires Traceable(c)
    ensures Major(p) >= 5
  {
    Squares(if p.first then p.v else p.u, Major(p));
    SmallMajor(Major(p));
  }

  lemma SmallMajor(m: nat)
    ensures m <= 4 ==> 2 * (m * m) + 2 * m + 1 < MIN_SQUARE
  {
    if m <= 4 {
      Squares(m, 4);
    }
  }

  lemma AdvanceKeepsCircle(c: int, p: Tracer)
    requires OnCircle(c, p)
    ensures OnCircle(c, Advance(p))
  {
    var down, up := DownU(p), UpV(p);
    assert OnCircle(c, down);
    assert OnCircle(c, up);
    assert OnCircle(c, if p.first then UpV(down) else DownU(up));
  }

  lemma StepKeepsCircle(c: int, strict: bool, p: Tracer)
    requires OnCircle(c, p)
    ensures OnCircle(c, LiveStep(strict, p))
    ensures OnCircle(c, DryStep(strict, p))
  {
    AdvanceKeepsCircle(c, p);
    var a := Advance(p);
    assert OnCircle(c, NextHalf(a));
  }

  lemma LiveStepTracks(c: int, strict: bool, p: Tracer)
    requires Traceable(c)
    requires Startable(c, strict, p)
    ensures Tracking(c, strict, LiveStep(strict, p))
  {
    MajorBound(c, strict, p);
    StepKeepsCircle(c, strict, p);
  }

  // Within half a step of the ideal circle.  One unit more happens only on the
  // tick after an axis or after the diagonal of a clockwise arc.
  ghost predicate Tight(p: Tracer) {
    && -Major(p) - 1 <= p.err <= Major(p) - 1
    && (p.err == -Major(p) - 1 && p.first ==> p.v == 1)
  }

  lemma LiveStepStaysTight(c: int, strict: bool, p: Tracer)
    requires Traceable(c)
    requires Startable(c, strict, p)
    requires Tight(p) && (p.u == 0 ==> p.err >= -p.v)
    ensures Tight(LiveStep(strict, p))
  {
    MajorBound(c, strict, p);
  }

  // ---- The two copies side by side ----

  // How far apart the interrupt's tracer i and the dry run d may be.
  datatype Gap =
    | Joined   // same point, same label
    | Lagging  // same point, but d has yet to notice the change of rule
    | Apart    // d went one step along v that i did not go

  ghost predicate Related(c: int, strict: bool, gap: Gap, i: Tracer, d: Tracer) {
    match gap
    case Joined =>
      i == d && Startable(c, strict, i)
    case Lagging =>
      && Tracking(c, strict, i)
      && i.err < Major(i)
      && (if i.first then i.v == 0 && 2 - 2 * i.u < i.err && Turn(d) == i && !d.first && d.u == 0
          else d == i.(first := true) && i.v <= i.u + (if strict then 2 else 1))
    case Apart =>
      && Tracking(c, strict, i)
      && OnCircle(c, d) && d.err != 0
      && (if i.first
          then i.v == 1 && d == i.(u := i.u + 1, err := i.err - 2 * i.u - 1) && 0 <= i.err < i.u
          else d == UpV(i) && 2 * (i.u - i.v) + 2 < i.err < i.v && i.v <= i.u + (if strict then 3 else 2))
  }

  function NextGap(strict: bool, gap: Gap, i: Tracer, d: Tracer): Gap {
    match gap
    case Joined => if LiveStep(strict, i) == DryStep(strict, d) then Joined else Lagging
    case Lagging => if LiveStep(strict, i) == DryStep(strict, d) then Joined else Apart
    case Apart => Joined
  }

  lemma JoinedStep(c: int, strict: bool, i: Tracer)
    requires Traceable(c)
    requires Startable(c, strict, i)
    ensures Related(c, strict, NextGap(strict, Joined, i, i), LiveStep(strict, i), DryStep(strict, i))
  {
    MajorBound(c, strict, i);
    LiveStepTracks(c, strict, i);
  }

  lemma LaggingStep(c: int, strict: bool, i: Tracer, d: Tracer)
    requires Traceable(c)
    requires Related(c, strict, Lagging, i, d)
    ensures Related(c, strict, NextGap(strict, Lagging, i, d), LiveStep(strict, i), DryStep(strict, d))
  {
    MajorBound(c, strict, i);
    LiveStepTracks(c, strict, i);
    assert OnCircle(c, d);
    StepKeepsCircle(c, strict, d);
    hide OnCircle;
    if i.first {
      LaggingAtAxis(c, strict, i, d);
    } else {
      LaggingAtDiagonal(c, strict, i, d);
    }
  }

  lemma LaggingAtAxis(c: int, strict: bool, i: Tracer, d: Tracer)
    requires Related(c, strict, Lagging, i, d) && i.first && i.u >= 5
    requires Tracking(c, strict, LiveStep(strict, i)) && OnCircle(c, DryStep(strict, d))
    ensures Related(c, strict, NextGap(strict, Lagging, i, d), LiveStep(strict, i), DryStep(strict, d))
  {
    hide OnCircle;
    assert i.v == 0 && d.u == 0 && d.v == i.u;
    if i.err <= -i.u {
      assert LiveStep(strict, i) == Tracer(i.quadrant, true, i.u - 1, 1, i.err + 2 * i.u - 2);
      assert DryStep(strict, d) == Tracer(i.quadrant, true, i.u, 1, i.err - 1);
    }
  }

  lemma LaggingAtDiagonal(c: int, strict: bool, i: Tracer, d: Tracer)
    requires Related(c, strict, Lagging, i, d) && !i.first && i.v >= 5
    requires Tracking(c, strict, LiveStep(strict, i)) && OnCircle(c, DryStep(strict, d))
    ensures Related(c, strict, NextGap(strict, Lagging, i, d), LiveStep(strict, i), DryStep(strict, d))
  {
    hide OnCircle;
    if i.err <= i.v - 2 * i.u {
      assert LiveStep(strict, i) == DownU(i);
      assert DryStep(strict, d) == UpV(DownU(i));
    }
  }

  lemma ApartStep(c: int, strict: bool, i: Tracer, d: Tracer)
    requires Traceable(c)
    requires Related(c, strict, Apart, i, d)
    ensures LiveStep(strict, i) == DryStep(strict, d)
    ensures Tracking(c, strict, LiveStep(strict, i))
  {
    MajorBound(c, strict, i);
    LiveStepTracks(c, strict, i);
    if !i.first {
      ApartGoesUp(c, strict, i);
    }
    hide OnCircle;
  }

  // Just behind the diagonal, the interrupt moves on in both coordinates.
  lemma ApartGoesUp(c: int, strict: bool, i: Tracer)
    requires Traceable(c) && OnCircle(c, i) && 0 < i.u <= i.v <= i.u + 3
    requires 2 * (i.u - i.v) + 2 < i.err < i.v
    ensures i.err > i.v - 2 * i.u
  {
    NearDiagonal(i.u, i.v, i.err);
  }

  lemma NearDiagonal(u: int, v: int, err: int)
    requires 0 < u <= v <= u + 3 && 2 * (u - v) + 2 < err
    ensures err <= v - 2 * u ==> err + u * u + v * v in {86, 87, 114} || err + u * u + v * v < MIN_SQUARE
  {
    if err <= v - 2 * u {
      assert u <= 6;
      if u == 6 {
        assert v == 9;
      } else if u == 5 {
        assert v == 8;
      } else {
        Squares(u, 4);
        Squares(v, 7);
      }
    }
  }

  // ---- Whole runs ----

  function LiveRun(strict: bool, p: Tracer, n: nat): Tracer {
    if n == 0 then p else LiveStep(strict, LiveRun(strict, p, n - 1))
  }

  function DryRun(strict: bool, p: Tracer, n: nat): Tracer {
    if n == 0 then p else DryStep(strict, DryRun(strict, p, n - 1))
  }

  lemma {:induction false} LiveRunTracks(c: int, strict: bool, p: Tracer, n: nat)
    requires Traceable(c)
    requires Startable(c, strict, p)
    ensures n == 0 || Tracking(c, strict, LiveRun(strict, p, n))
    ensures Startable(c, strict, LiveRun(strict, p, n))
  {
    if n > 0 {
      LiveRunTracks(c, strict, p, n - 1);
      LiveStepTracks(c, strict, LiveRun(strict, p, n - 1));
    }
  }

  lemma {:induction false} LiveRunStaysTight(c: int, strict: bool, p: Tracer, n: nat)
    requires Traceable(c)
    requires Startable(c, strict, p)
    requires Tight(p) && (p.u == 0 ==> p.err >= -p.v)
    ensures Tight(LiveRun(strict, p, n))
  {
    if n > 0 {
      LiveRunStaysTight(c, strict, p, n - 1);
      LiveRunTracks(c, strict, p, n - 1);
      LiveStepStaysTight(c, strict, LiveRun(strict, p, n - 1));
    }
  }

  // At every tick the dry run is joined with, one label behind, or one point
  // apart from the interrupt.
  lemma {:induction false} RunsStayRelated(c: int, strict: bool, p: Tracer, n: nat) returns (gap: Gap)
    requires Traceable(c)
    requires Startable(c, strict, p)
    ensures Related(c, strict, gap, LiveRun(strict, p, n), DryRun(strict, p, n))
  {
    if n == 0 {
      gap := Joined;
    } else {
      var g := RunsStayRelated(c, strict, p, n - 1);
      var i, d := LiveRun(strict, p, n - 1), DryRun(strict, p, n - 1);
      gap := NextGap(strict, g, i, d);
      match g
      case Joined => JoinedStep(c, strict, i);
      case Lagging => LaggingStep(c, strict, i, d);
      case Apart => ApartStep(c, strict, i, d);
    }
  }

  // The two visit different points only once in a row: after a tick at which
  // they differ, the next tick makes them equal, label included.
  lemma RunsRejoin(c: int, strict: bool, p: Tracer, n: nat)
    requires Traceable(c)
    requires Startable(c, strict, p)
    ensures LiveRun(strict, p, n) == DryRun(strict, p, n)
         || LiveRun(strict, p, n + 1) == DryRun(strict, p, n + 1)
         || LiveRun(strict, p, n + 2) == DryRun(strict, p, n + 2)
  {
    var g := RunsStayRelated(c, strict, p, n);
    var i, d := LiveRun(strict, p, n), DryRun(strict, p, n);
    match g {
      case Joined =>
      case Lagging =>
        LaggingStep(c, strict, i, d);
        var i', d' := LiveStep(strict, i), DryStep(strict, d);
        assert LiveRun(strict, p, n + 1) == i' && DryRun(strict, p, n + 1) == d';
        if i' != d' {
          ApartStep(c, strict, i', d');
        }
      case Apart =>
        ApartStep(c, strict, i, d);
    }
  }
}
