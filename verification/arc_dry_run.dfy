// The planner's dry run: the kernel that traces an arc once, ahead of time,
// to learn how many ticks the interrupt will need for it.
module ArcDryRun {
  import opened Arithmetic
  import opened ArcTracer
  import opened ArcCoverage
  import opened ArcOctants

  // What a kernel call reports.
  const NO_HIT := 0
  const NO_MORE_STEPS := 1
  const NEAR_HIT := 2
  const HIT := 3

  // How a point compares with the end point: exactly on it, on its row or
  // column and side, or neither.
  function HitTest(x: int, y: int, endx: int, endy: int): int {
    if Abs(x) > Abs(y) then
      if endy == y then
        if endx == x then HIT
        else if Sgn(x) == Sgn(endx) then NEAR_HIT
        else NO_HIT
      else NO_HIT
    else
      if endx == x then
        if endy == y then HIT
        else if Sgn(y) == Sgn(endy) then NEAR_HIT
        else NO_HIT
      else NO_HIT
  }

  // A 32 bit counter wraps below zero.
  function Decremented(n: int): int {
    if n == 0 then U32 - 1 else n - 1
  }

  class ArcPlanner {
    var x: int
    var y: int
    var octant: int
    var err: int
    var dx: int
    var dy: int
    var endx: int
    var endy: int
    var numSteps: int

    ghost predicate Valid()
      reads this
    {
      (IsArc(octant) || octant == BAD_OCTANT) && dx == 2 * x && dy == 2 * y && 0 <= numSteps < U32
    }

    // p is the tracer whose point and label are stored.  An arc about its own
    // start has no octant, and no tracer: the kernel stays where it is.
    ghost predicate Follows(p: Tracer)
      reads this
    {
      IsArc(octant) ==> Stored(IsClockwise(octant), p, octant, x, y, err)
    }

    constructor ()
      ensures fresh(this)
    {}

    // Which way to go, and whether this was the last step of the octant: tested
    // on the point before the step.
    method SelectFlags() returns (xNeg: bool, xPos: bool, yNeg: bool, yPos: bool)
      requires Valid()
      modifies this`octant
      ensures !(xNeg && xPos) && !(yNeg && yPos)
      ensures (Delta(xNeg, xPos), Delta(yNeg, yPos)) == Choice(old(octant), x, y, err)
      ensures octant == Relabel(old(octant), x, y)
    {
      xNeg, xPos, yNeg, yPos := false, false, false, false;
      match octant {
        case 16 =>
          if err <= dy - x { xNeg := true; }
          yPos := true;
          if y >= x { octant := 17; }
        case 17 =>
          if err > y - dx { yPos := true; }
          xNeg := true;
          if x <= 0 { octant := 18; }
        case 18 =>
          if err <= -(dx + y) { yNeg := true; }
          xNeg := true;
          if x <= -y { octant := 19; }
        case 19 =>
          if err > -(dy + x) { xNeg := true; }
          yNeg := true;
          if y <= 0 { octant := 20; }
        case 20 =>
          if err <= x - dy { xPos := true; }
          yNeg := true;
          if x >= y { octant := 21; }
        case 21 =>
          if err > dx - y { yNeg := true; }
          xPos := true;
          if x >= 0 { octant := 22; }
        case 22 =>
          if err <= dx + y { yPos := true; }
          xPos := true;
          if x >= -y { octant := 23; }
        case 23 =>
          if err > x + dy { xPos := true; }
          yPos := true;
          if y >= 0 { octant := 16; }
        case 24 =>
          if err > -dy + x { xPos := true; }
          yNeg := true;
          if y <= 0 { octant := 31; }
        case 25 =>
          if err <= -y + dx { yNeg := true; }
          xPos := true;
          if y < x { octant := 24; }
        case 26 =>
          if err > dx + y { yPos := true; }
          xPos := true;
          if x >= 0 { octant := 25; }
        case 27 =>
          if err <= dy + x { xPos := true; }
          yPos := true;
          if x > -y { octant := 26; }
        case 28 =>
          if err > -x + dy { xNeg := true; }
          yPos := true;
          if y >= 0 { octant := 27; }
        case 29 =>
          if err <= -dx + y { yPos := true; }
          xNeg := true;
          if x < y { octant := 28; }
        case 30 =>
          if err > -(dx + y) { yNeg := true; }
          xNeg := true;
          if x <= 0 { octant := 29; }
        case 31 =>
          if err <= -(x + dy) { xNeg := true; }
          yNeg := true;
          if x < -y { octant := 30; }
        case _ =>
      }
    }

    // The bookkeeping of a step: err stays what is missing to the circle.
    method Trace(xNeg: bool, xPos: bool, yNeg: bool, yPos: bool)
      requires Valid()
      requires !(xNeg && xPos) && !(yNeg && yPos)
      modifies this`x, this`y, this`dx, this`dy, this`err
      ensures Valid()
      ensures x == old(x) + Delta(xNeg, xPos) && y == old(y) + Delta(yNeg, yPos)
      ensures err == old(err) - Growth(old(x), xNeg, xPos) - Growth(old(y), yNeg, yPos)
    {
      if xNeg {
        err := err + dx - 1;
        dx := dx - 2;
        x := x - 1;
      }
      if xPos {
        x := x + 1;
        dx := dx + 2;
        err := err - (dx - 1);
      }
      if yNeg {
        err := err + dy - 1;
        dy := dy - 2;
        y := y - 1;
      }
      if yPos {
        y := y + 1;
        dy := dy + 2;
        err := err - (dy - 1);
      }
    }

    // One point further along the arc, and a look whether the end is reached.
    method Kernel(ghost p: Tracer) returns (code: int)
      requires Valid() && Follows(p)
      modifies this
      ensures Valid() && IsArc(octant) == old(IsArc(octant)) && IsClockwise(octant) == old(IsClockwise(octant))
      ensures endx == old(endx) && endy == old(endy)
      ensures Follows(DryStep(IsClockwise(octant), p))
      ensures old(octant) == BAD_OCTANT ==> octant == BAD_OCTANT && x == old(x) && y == old(y)
      ensures var h := HitTest(x, y, endx, endy);
        if h != NO_HIT then code == h && numSteps == old(numSteps)
        else numSteps == Decremented(old(numSteps)) && code == if numSteps == 0 then NO_MORE_STEPS else NO_HIT
    {
      ghost var octant0, x0, y0, err0 := octant, x, y, err;
      var xNeg, xPos, yNeg, yPos := SelectFlags();
      Trace(xNeg, xPos, yNeg, yPos);
      GrowthOfSquare(x0, xNeg, xPos);
      GrowthOfSquare(y0, yNeg, yPos);
      if IsArc(octant0) {
        StepInWorld(p, octant0, x0, y0, err0, x, y, err);
      }
      code := HitTest(x, y, endx, endy);
      if code != NO_HIT {
        return;
      }
      numSteps := Decremented(numSteps);
      code := if numSteps == 0 then NO_MORE_STEPS else NO_HIT;
    }

    method InitArc(r: int, fromx: int, fromy: int, ccw: bool)
      requires 0 <= r && 6 * r < U32
      modifies this
      ensures x == fromx && y == fromy && dx == 2 * x && dy == 2 * y
      ensures octant == GetOctant(fromx, fromy, ccw)
      ensures numSteps == 6 * r
      ensures err == old(err) && endx == old(endx) && endy == old(endy)
    {
      octant := GetOctant(fromx, fromy, ccw);
      x := fromx;
      y := fromy;
      dx := 2 * x;
      dy := 2 * y;
      numSteps := 6 * r;
    }

    // Iterate once through the arc: n kernel calls, the last of which is the
    // first to report something.
    method CountSteps(ghost p: Tracer) returns (code: int, ghost n: nat)
      requires Valid() && Follows(p)
      requires numSteps > 0 || (octant == BAD_OCTANT && x == endx && y == endy)
      modifies this
      ensures 1 <= n && (n <= old(numSteps) || old(numSteps) == 0)
      ensures numSteps == old(numSteps) - n + if code == NO_MORE_STEPS then 0 else 1
      ensures old(IsArc(octant)) ==>
        && Quiet(old(IsClockwise(octant)), p, old(endx), old(endy), n - 1)
        && var h := Report(old(IsClockwise(octant)), p, old(endx), old(endy), n);
          code == if h != NO_HIT then h else NO_MORE_STEPS
      ensures code == NO_MORE_STEPS ==> n == old(numSteps)
      ensures old(numSteps) == 0 ==> n == 1 && code == HIT
    {
      ghost var arc, cw := IsArc(octant), IsClockwise(octant);
      n := 0;
      code := NO_HIT;
      while code == NO_HIT
        invariant Valid() && endx == old(endx) && endy == old(endy)
        invariant IsArc(octant) == arc && IsClockwise(octant) == cw && Follows(DryRun(cw, p, n))
        invariant arc ==> Quiet(cw, p, endx, endy, if code == NO_HIT then n else n - 1)
        invariant code == NO_HIT ==> numSteps == old(numSteps) - n && (numSteps > 0 || n == 0)
        invariant code == NO_HIT && numSteps == 0 ==> octant == BAD_OCTANT && x == endx && y == endy
        invariant code != NO_HIT ==>
          && 1 <= n && (n <= old(numSteps) || (old(numSteps) == 0 && n == 1 && code == HIT))
          && numSteps == old(numSteps) - n + (if code == NO_MORE_STEPS then 0 else 1)
          && (code == NO_MORE_STEPS ==> n == old(numSteps))
          && (arc ==> var h := Report(cw, p, endx, endy, n); code == if h != NO_HIT then h else NO_MORE_STEPS)
        decreases numSteps, code == NO_HIT
      {
        code := Kernel(DryRun(cw, p, n));
        n := n + 1;
        if arc {
          ReportIsHitTest(cw, p, n, octant, x, y, err, endx, endy);
        }
      }
    }

    // Count the ticks of an arc about the origin and fill in its job.
    method BufferArc(r: int, fromx: int, fromy: int, tox: int, toy: int, ccw: bool)
      returns (stepcount: int, job: int, jobErr: int, code: int, ghost p: Tracer)
      requires 0 <= r && 6 * r < U32
      requires r == 0 ==> fromx == fromy == tox == toy == 0
      modifies this
      ensures job == GetOctant(fromx, fromy, ccw)
      ensures jobErr == StartError(fromx, fromy, tox, toy)
      ensures 0 <= stepcount < WIDTH
      ensures job != BAD_OCTANT ==> Stored(!ccw, p, job, fromx, fromy, jobErr) && p.quadrant < 4
      ensures job != BAD_OCTANT && 6 * r + 1 < WIDTH ==>
        FirstReport(!ccw, p, tox, toy, r, if code == NO_MORE_STEPS then stepcount - 1 else stepcount, code)
    {
      endx := tox;
      endy := toy;
      InitArc(r, fromx, fromy, ccw);
      err := StartError(fromx, fromy, tox, toy);
      p := FrameAt(octant, x, y, err);
      ghost var n;
      code, n := CountSteps(p);
      stepcount := -numSteps;
      InitArc(r, fromx, fromy, ccw);
      err := StartError(fromx, fromy, tox, toy);
      stepcount := Low24(stepcount + numSteps + 1);
      job := GetOctant(fromx, fromy, ccw);
      jobErr := err;
    }
  }

  lemma FrameAt(octant: int, x: int, y: int, err: int) returns (p: Tracer)
    ensures p.quadrant < 4
    ensures IsArc(octant) ==> Stored(IsClockwise(octant), p, octant, x, y, err)
  {
    p := Tracer(0, true, 0, 0, 0);
    if IsArc(octant) {
      FrameRoundTrip(octant, x, y, err);
      p := FrameOf(octant, x, y, err);
    }
  }

  // What the dry run reports after n steps from p.
  ghost function Report(clockwise: bool, p: Tracer, endx: int, endy: int, n: nat): int {
    HitTest(Place(clockwise, DryRun(clockwise, p, n)).0, Place(clockwise, DryRun(clockwise, p, n)).1, endx, endy)
  }

  // Nothing to report in the first n steps.
  ghost predicate Quiet(clockwise: bool, p: Tracer, endx: int, endy: int, n: int) {
    forall k: nat | 1 <= k <= n :: Report(clockwise, p, endx, endy, k) == NO_HIT
  }

  // Tick n is the first at which the dry run has something to report.
  ghost predicate FirstReport(clockwise: bool, p: Tracer, endx: int, endy: int, r: int, n: int, code: int) {
    && 1 <= n <= 6 * r
    && Quiet(clockwise, p, endx, endy, n - 1)
    && code == (if Report(clockwise, p, endx, endy, n) != NO_HIT then Report(clockwise, p, endx, endy, n) else NO_MORE_STEPS)
    && (code == NO_MORE_STEPS ==> n == 6 * r)
  }

  // The ticks that are stored in the job: one more when the allowance ran out.
  function StoredCount(n: nat, code: int): nat { if code == NO_MORE_STEPS then n + 1 else n }

  lemma ReportIsHitTest(clockwise: bool, p: Tracer, n: nat, octant: int, x: int, y: int, err: int, endx: int, endy: int)
    requires Stored(clockwise, DryRun(clockwise, p, n), octant, x, y, err)
    ensures Report(clockwise, p, endx, endy, n) == HitTest(x, y, endx, endy)
  {}

  // Octant test before the step: the dry run's tracer.
  lemma StepInWorld(p: Tracer, octant: int, x: int, y: int, err: int, x': int, y': int, err': int)
    requires IsArc(octant) && Stored(IsClockwise(octant), p, octant, x, y, err)
    requires (x', y') == (x + Choice(octant, x, y, err).0, y + Choice(octant, x, y, err).1)
    requires err' + x' * x' + y' * y' == err + x * x + y * y
    ensures Stored(IsClockwise(octant), DryStep(IsClockwise(octant), p), Relabel(octant, x, y), x', y', err')
  {
    var clockwise := IsClockwise(octant);
    StoredFrame(clockwise, p, octant, x, y, err);
    ChoiceIsRule(octant, x, y, err);
    AdvanceLap(clockwise, p);
    AdvanceKeepsCircle(err + x * x + y * y, p);
    PlaceSquare(clockwise, Advance(p), x', y');
    RelabelIsNext(p, clockwise, octant, x, y);
    LabelOfAdvance(clockwise, p);
    LabelKeepsPlace(clockwise, Advance(p));
  }

  function Low24(n: int): (m: int)
    ensures 0 <= m < WIDTH
    ensures 0 <= n < WIDTH ==> m == n
  {
    n % WIDTH
  }

  function StartError(fromx: int, fromy: int, tox: int, toy: int): int {
    Signed32(tox * tox - fromx * fromx + toy * toy - fromy * fromy)
  }

  // The arcs of which the firmware's promise of an exact match holds: start
  // and target are on circles about one step apart at most, and six radii are
  // enough for a lap of the larger one; r is the floor of its radius.  For
  // targets closer than MIN_SQUARE the two tracers come apart for longer.
  ghost predicate ArcInReach(r: int, fromx: int, fromy: int, tox: int, toy: int, ccw: bool) {
    ArcInWindow(r, fromx, fromy, tox, toy, ccw) && LapFits(r, LargerSquare(fromx, fromy, tox, toy))
  }

  function LargerSquare(fromx: int, fromy: int, tox: int, toy: int): (top: nat) {
    Max(fromx * fromx + fromy * fromy, tox * tox + toy * toy)
  }

  ghost predicate ArcInWindow(r: int, fromx: int, fromy: int, tox: int, toy: int, ccw: bool) {
    var f, t := fromx * fromx + fromy * fromy, tox * tox + toy * toy;
    var m := Max(Abs(fromx), Abs(fromy));
    && 0 <= r && 6 * r + 1 < WIDTH && MIN_SQUARE <= t
    && r * r <= LargerSquare(fromx, fromy, tox, toy) < (r + 1) * (r + 1)
    && (if !ccw && (fromx == 0 || fromy == 0) then 3 - 2 * m <= t - f else 2 - 2 * m <= t - f)
    && t - f <= 2 * m + 1
  }

  // In particular, all arcs whose ends are equally far from the centre.
  lemma CircleIsInReach(r: int, fromx: int, fromy: int, tox: int, toy: int, ccw: bool)
    requires fromx * fromx + fromy * fromy == tox * tox + toy * toy
    requires 0 <= r && 6 * r + 1 < WIDTH && MIN_SQUARE <= fromx * fromx + fromy * fromy
    requires r * r <= fromx * fromx + fromy * fromy < (r + 1) * (r + 1)
    requires LapFits(r, fromx * fromx + fromy * fromy)
    ensures ArcInReach(r, fromx, fromy, tox, toy, ccw)
  {
    var m := Max(Abs(fromx), Abs(fromy));
    if m < 2 {
      Squares(Abs(fromx), 1);
      Squares(Abs(fromy), 1);
    }
  }

  lemma HitTestOnCircle(x: int, y: int, err: int, endx: int, endy: int)
    requires x * x + y * y + err == endx * endx + endy * endy
    requires -2 * Max(Abs(x), Abs(y)) + 1 < err <= 2 * Max(Abs(x), Abs(y))
    ensures HitTest(x, y, endx, endy) == if x == endx && y == endy then HIT else NO_HIT
  {
    if Abs(x) > Abs(y) && endy == y && Sgn(x) == Sgn(endx) {
      OnePerRow(Abs(x), Abs(endx), err);
    } else if Abs(x) <= Abs(y) && endx == x && Sgn(y) == Sgn(endy) {
      OnePerRow(Abs(y), Abs(endy), err);
    }
  }

  // A point one step too far out reports, as a near hit, exactly when the
  // point without that step is the target.
  lemma HitTestApart(x: int, y: int, err: int, x': int, y': int, endx: int, endy: int)
    requires x * x + y * y + err == endx * endx + endy * endy
    requires || (y' == y && OneFurther(x, x') && Abs(x') > Abs(y) && -2 * Abs(x) + 1 < err <= 2 * Abs(x))
             || (x' == x && OneFurther(y, y') && Abs(y') > Abs(x) && -2 * Abs(y) + 1 < err <= 2 * Abs(y))
    requires (x', y') != (endx, endy)
    ensures HitTest(x', y', endx, endy) == if x == endx && y == endy then NEAR_HIT else NO_HIT
  {
    if y' == y && OneFurther(x, x') && Abs(x') > Abs(y) {
      FurtherInRow(x, y, err, x', endx, endy);
    } else {
      FurtherInColumn(x, y, err, y', endx, endy);
    }
  }

  lemma FurtherInRow(x: int, y: int, err: int, x': int, endx: int, endy: int)
    requires x * x + y * y + err == endx * endx + endy * endy
    requires OneFurther(x, x') && Abs(x') > Abs(y) && -2 * Abs(x) + 1 < err <= 2 * Abs(x)
    requires (x', y) != (endx, endy)
    ensures HitTest(x', y, endx, endy) == if x == endx && y == endy then NEAR_HIT else NO_HIT
  {
    if endy == y && Sgn(x') == Sgn(endx) {
      OnePerRow(Abs(x), Abs(endx), err);
    }
  }

  lemma FurtherInColumn(x: int, y: int, err: int, y': int, endx: int, endy: int)
    requires x * x + y * y + err == endx * endx + endy * endy
    requires OneFurther(y, y') && Abs(y') > Abs(x) && -2 * Abs(y) + 1 < err <= 2 * Abs(y)
    requires (x, y') != (endx, endy)
    ensures HitTest(x, y', endx, endy) == if x == endx && y == endy then NEAR_HIT else NO_HIT
  {
    if endx == x && Sgn(y') == Sgn(endy) {
      OnePerRow(Abs(y), Abs(endy), err);
    }
  }

  predicate OneFurther(a: int, a': int) {
    a != 0 && a' == a + Sgn(a)
  }

  lemma PlaceMax(clockwise: bool, p: Tracer)
    ensures var at := Place(clockwise, p); Max(Abs(at.0), Abs(at.1)) == Max(Abs(p.u), Abs(p.v))
  {}

  lemma AtTarget(c: int, clockwise: bool, p: Tracer, x: int, y: int)
    requires OnCircle(c, p) && c == x * x + y * y
    requires Place(clockwise, p) == (x, y)
    ensures p.err == 0
  {
    PlaceSquare(clockwise, p, x, y);
  }

  lemma ApartPlaces(c: int, strict: bool, i: Tracer, d: Tracer)
    requires Traceable(c)
    requires Related(c, strict, Apart, i, d)
    ensures var at, at' := Place(strict, i), Place(strict, d);
      || (at'.1 == at.1 && OneFurther(at.0, at'.0) && Abs(at'.0) > Abs(at.1) && Abs(at.0) == Major(i))
      || (at'.0 == at.0 && OneFurther(at.1, at'.1) && Abs(at'.1) > Abs(at.0) && Abs(at.1) == Major(i))
  {
    MajorBound(c, strict, i);
  }

  // The dry run has something to report at exactly the ticks at which the
  // interrupt will be on the target; a near hit, if it is one point apart then.
  lemma DryReports(strict: bool, p: Tracer, n: nat, tox: int, toy: int)
    requires n >= 1
    requires Traceable(tox * tox + toy * toy)
    requires Startable(tox * tox + toy * toy, strict, p)
    ensures Report(strict, p, tox, toy, n) ==
      if Place(strict, LiveRun(strict, p, n)) != (tox, toy) then NO_HIT
      else if Place(strict, DryRun(strict, p, n)) == (tox, toy) then HIT else NEAR_HIT
  {
    var c := tox * tox + toy * toy;
    var gap := RunsStayRelated(c, strict, p, n);
    LiveRunTracks(c, strict, p, n);
    var i, d := LiveRun(strict, p, n), DryRun(strict, p, n);
    var at, at' := Place(strict, i), Place(strict, d);
    PlaceSquare(strict, i, at.0, at.1);
    if gap.Apart? {
      ApartPlaces(c, strict, i, d);
      if at' == (tox, toy) {
        AtTarget(c, strict, d, tox, toy);
      }
      HitTestApart(at.0, at.1, i.err, at'.0, at'.1, tox, toy);
    } else {
      JoinedPlaces(c, strict, gap, i, d);
      PlaceMax(strict, i);
      MajorIsMax(c, strict, i);
      HitTestOnCircle(at.0, at.1, i.err, tox, toy);
    }
  }

  lemma JoinedPlaces(c: int, strict: bool, gap: Gap, i: Tracer, d: Tracer)
    requires Related(c, strict, gap, i, d) && !gap.Apart?
    ensures Place(strict, i) == Place(strict, d)
  {
    LabelKeepsPlace(strict, d);
  }

  lemma MajorIsMax(c: int, strict: bool, p: Tracer)
    requires Tracking(c, strict, p)
    ensures Major(p) == Max(Abs(p.u), Abs(p.v))
  {}

  // The three squares that no target has.
  lemma NoTarget(x: int, y: int)
    ensures x * x + y * y !in {86, 87, 114}
  {
    var a, b := Abs(x), Abs(y);
    if a > 10 { Squares(11, a); }
    if b > 10 { Squares(11, b); }
    if a <= 10 && b <= 10 {
      assert a in {0, 1, 2, 3, 4, 5, 6, 7, 8, 9, 10} && b in {0, 1, 2, 3, 4, 5, 6, 7, 8, 9, 10};
    }
  }

  lemma MajorWithin(r: int, m: int, f: int)
    requires 0 <= r && 0 <= m && m * m <= f < (r + 1) * (r + 1)
    ensures m <= r
  {
    if m > r {
      Squares(r + 1, m);
    }
  }

  lemma SquareOfMax(x: int, y: int)
    ensures Max(Abs(x), Abs(y)) * Max(Abs(x), Abs(y)) <= x * x + y * y
  {}

  function StartFrame(fromx: int, fromy: int, tox: int, toy: int, ccw: bool): Tracer
    requires fromx != 0 || fromy != 0
  {
    FrameOf(GetOctant(fromx, fromy, ccw), fromx, fromy, StartError(fromx, fromy, tox, toy))
  }

  lemma ArcStarts(r: int, fromx: int, fromy: int, tox: int, toy: int, ccw: bool)
    requires ArcInReach(r, fromx, fromy, tox, toy, ccw)
    requires fromx != 0 || fromy != 0
    ensures var c, p := tox * tox + toy * toy, StartFrame(fromx, fromy, tox, toy, ccw);
      && Traceable(c) && Startable(c, !ccw, p)
      && p.err == c - (fromx * fromx + fromy * fromy)
      && p.quadrant < 4
  {
    var f, c := fromx * fromx + fromy * fromy, tox * tox + toy * toy;
    var m := Max(Abs(fromx), Abs(fromy));
    SquareOfMax(fromx, fromy);
    NoTarget(tox, toy);
    assert (r + 1) * (r + 1) == r * r + 2 * r + 1;
    MajorWithin(r, m, f);
    GetOctantFrame(fromx, fromy, ccw, c - f);
  }

  // The target as a landmark of its own frame.
  lemma GoalOf(ccw: bool, tox: int, toy: int) returns (goal: Tracer)
    requires tox != 0 || toy != 0
    ensures Landmark(tox * tox + toy * toy, !ccw, goal)
    ensures goal.quadrant < 4
    ensures forall lap: nat :: Place(!ccw, Turned(goal, 4 * lap)) == (tox, toy)
  {
    var o := GetOctant(tox, toy, ccw);
    var t := FrameOf(o, tox, toy, 0);
    GetOctantFrame(tox, toy, ccw, 0);
    FrameRoundTrip(o, tox, toy, 0);
    LabelKeepsPlace(!ccw, t);
    goal := if t.u == 0 then Turn(t).(quadrant := (t.quadrant + 1) % 4) else t;
  }

  lemma ArcArrives(r: int, fromx: int, fromy: int, tox: int, toy: int, ccw: bool) returns (n: nat)
    requires fromx != 0 || fromy != 0
    requires ArcInReach(r, fromx, fromy, tox, toy, ccw)
    ensures 1 <= n <= 6 * r
    ensures Place(!ccw, LiveRun(!ccw, StartFrame(fromx, fromy, tox, toy, ccw), n)) == (tox, toy)
  {
    ArcStarts(r, fromx, fromy, tox, toy, ccw);
    var top := LargerSquare(fromx, fromy, tox, toy);
    n := RunArrives(r, top, StartFrame(fromx, fromy, tox, toy, ccw), ccw, tox, toy);
  }

  lemma RunArrives(r: nat, top: nat, p: Tracer, ccw: bool, tox: int, toy: int) returns (n: nat)
    requires LapFits(r, top)
    requires var c := tox * tox + toy * toy;
      && Traceable(c) && c <= top && c - p.err <= top
      && Startable(c, !ccw, p)
    requires p.quadrant < 4
    ensures 1 <= n <= 6 * r
    ensures Place(!ccw, LiveRun(!ccw, p, n)) == (tox, toy)
  {
    var goal := GoalOf(ccw, tox, toy);
    var lap: nat;
    n, lap := ReachesTarget(r, top, tox * tox + toy * toy, !ccw, p, goal);
    assert Place(!ccw, Turned(goal, 4 * lap)) == (tox, toy);
  }

  lemma FirstReportIsArrival(strict: bool, p: Tracer, tox: int, toy: int, r: int, n: nat, code: int, arrival: nat)
    requires Traceable(tox * tox + toy * toy)
    requires Startable(tox * tox + toy * toy, strict, p)
    requires 1 <= arrival <= 6 * r && Place(strict, LiveRun(strict, p, arrival)) == (tox, toy)
    requires FirstReport(strict, p, tox, toy, r, n, code)
    ensures code == HIT || code == NEAR_HIT
    ensures Place(strict, LiveRun(strict, p, n)) == (tox, toy)
  {
    DryReports(strict, p, arrival, tox, toy);
    DryReports(strict, p, n, tox, toy);
    assert Report(strict, p, tox, toy, arrival) != NO_HIT;
    assert arrival >= n;
  }

  // "Err will be zero at target point -> always exact match": for the arcs in
  // reach, the interrupt that runs as many ticks as the dry run counts ends on
  // the target, and the allowance of six radii is never used up.
  lemma ExactMatch(r: int, fromx: int, fromy: int, tox: int, toy: int, ccw: bool, n: nat, code: int)
    requires fromx != 0 || fromy != 0
    requires ArcInReach(r, fromx, fromy, tox, toy, ccw)
    requires FirstReport(!ccw, StartFrame(fromx, fromy, tox, toy, ccw), tox, toy, r, n, code)
    ensures code == HIT || code == NEAR_HIT
    ensures Place(!ccw, LiveRun(!ccw, StartFrame(fromx, fromy, tox, toy, ccw), n)) == (tox, toy)
  {
    ArcStarts(r, fromx, fromy, tox, toy, ccw);
    var arrival := ArcArrives(r, fromx, fromy, tox, toy, ccw);
    FirstReportIsArrival(!ccw, StartFrame(fromx, fromy, tox, toy, ccw), tox, toy, r, n, code, arrival);
  }
}
