// Where the promise of an exact match ends: start errors outside the window,
// and laps that take more than six radii of ticks.
module ArcLimits {
  import opened Arithmetic
  import opened ArcTracer
  import opened ArcCoverage
  import opened ArcOctants
  import opened ArcDryRun
  import opened ArcHits

  // ---- The window of start errors ----

  // One unit beyond it, at either end and at every radius, there are arcs whose
  // dry run stops at a near hit, one step beside the target, and the interrupt
  // stops with it.
  lemma MissAboveWindow(m: nat)
    requires 2 <= m < 0x4000_0000 - 1
    ensures var p := StartFrame(0, m, -1, m + 1, true);
      p.err == 2 * m + 2 && Report(false, p, -1, m + 1, 1) == NEAR_HIT &&
      Place(false, LiveRun(false, p, 1)) == (-1, m)
  {
    var p := Tracer(1, true, m, 0, 2 * m + 2);
    assert 1 + (m + 1) * (m + 1) - m * m == 2 * m + 2;
    assert StartFrame(0, m, -1, m + 1, true) == p;
    assert DryRun(false, p, 0) == p && LiveRun(false, p, 0) == p;
    assert DryRun(false, p, 1) == Tracer(1, true, m, 1, 2 * m + 1) == LiveRun(false, p, 1);
  }

  lemma MissBelowWindow(m: nat)
    requires 3 <= m < 0x4000_0000
    ensures var p := StartFrame(m, m - 2, m - 1, m - 2, true);
      p.err == 1 - 2 * m && Report(false, p, m - 1, m - 2, 1) == NEAR_HIT &&
      Place(false, LiveRun(false, p, 1)) == (m - 1, m - 1)
  {
    var p := Tracer(0, true, m, m - 2, 1 - 2 * m);
    assert (m - 1) * (m - 1) - m * m == 1 - 2 * m;
    assert StartFrame(m, m - 2, m - 1, m - 2, true) == p;
    assert DryRun(false, p, 0) == p && LiveRun(false, p, 0) == p;
    assert DryRun(false, p, 1) == Tracer(0, true, m - 1, m - 1, 3 - 2 * m);
    assert LiveRun(false, p, 1) == Tracer(0, false, m - 1, m - 1, 3 - 2 * m);
  }

  lemma MissBelowWindowOnAxis(m: nat)
    requires 2 <= m < 0x4000_0000
    ensures var p := StartFrame(0, m, 1, m - 1, false);
      p.err == 2 - 2 * m && Report(true, p, 1, m - 1, 1) == NEAR_HIT &&
      Place(true, LiveRun(true, p, 1)) == (1, m)
  {
    var p := StartFrame(0, m, 1, m - 1, false);
    assert 1 + (m - 1) * (m - 1) - m * m == 2 - 2 * m;
    assert p == Tracer(2, false, 0, m, 2 - 2 * m);
    assert DryRun(true, p, 0) == p && LiveRun(true, p, 0) == p;
    assert DryRun(true, p, 1) == Tracer(3, true, m, 1, 1 - 2 * m) == LiveRun(true, p, 1);
  }

  // ---- Laps ----

  lemma {:induction false} RunOfTurned(strict: bool, p: Tracer, k: nat, n: nat)
    ensures LiveRun(strict, Turned(p, k), n) == Turned(LiveRun(strict, p, n), k)
  {
    if n > 0 {
      RunOfTurned(strict, p, k, n - 1);
      StepOfTurned(strict, LiveRun(strict, p, n - 1), k);
    }
  }

  lemma StepOfTurned(strict: bool, p: Tracer, k: nat)
    ensures LiveStep(strict, Turned(p, k)) == Turned(LiveStep(strict, p), k)
  {}

  // The second half of a quadrant takes as many ticks as it is steps wide.
  lemma ToTheAxis(c: int, strict: bool, p: Tracer)
    requires Traceable(c) && Tracking(c, strict, p) && !p.first
    ensures var q := LiveRun(strict, p, p.u); q.first && q.v == 0 && q.quadrant == p.quadrant + 1
    ensures Half(LiveRun(strict, p, p.u - 1)) == Half(p)
  {
    InSecondHalf(c, strict, p, p.u - 1);
    hide Tracking, LiveStep, Traceable;
    SecondHalfStep(c, strict, LiveRun(strict, p, p.u - 1));
  }

  lemma {:induction false} InSecondHalf(c: int, strict: bool, p: Tracer, n: nat)
    requires Traceable(c) && Tracking(c, strict, p) && !p.first && n < p.u
    ensures var q := LiveRun(strict, p, n);
      Tracking(c, strict, q) && !q.first && q.u == p.u - n && q.quadrant == p.quadrant
  {
    hide Tracking, LiveStep, Traceable;
    if n > 0 {
      InSecondHalf(c, strict, p, n - 1);
      SecondHalfStep(c, strict, LiveRun(strict, p, n - 1));
    }
  }

  lemma SecondHalfStep(c: int, strict: bool, p: Tracer)
    requires Traceable(c) && Tracking(c, strict, p) && !p.first
    ensures p.u > 0 && Tracking(c, strict, LiveStep(strict, p))
    ensures var q := LiveStep(strict, p);
      if p.u > 1 then !q.first && q.u == p.u - 1 && q.quadrant == p.quadrant
      else q.first && q.v == 0 && q.quadrant == p.quadrant + 1
  {
    LiveStepTracks(c, strict, p);
  }

  // From a point of the circle to the same point of the next quadrant it takes
  // as many ticks as the coordinates add up to just behind the diagonal.
  lemma QuarterTicks(c: nat, strict: bool, p: Tracer, k: nat)
    requires Traceable(c) && Landmark(c, strict, p) && p.first
    requires k > 0 && Half(LiveRun(strict, p, k - 1)) == Half(p) < Half(LiveRun(strict, p, k))
    ensures var x := LiveRun(strict, p, k);
      0 < x.u && 0 < x.v && LiveRun(strict, p, x.u + x.v) == Turned(p, 1)
  {
    hide LiveRun, Traceable, Landmark, OnCircle;
    var x := LiveRun(strict, p, k);
    CrossingTick(c, strict, p, k);
    AxisTick(c, strict, p, k);
    assert Half(x) == Half(p) + 1 && !x.first && p.first && x.v == p.v + k && x.u > 0 && x.v > 0;
    hide Tracking;
    var n := NextQuarter(c, strict, p);
    AfterTheAxis(strict, p, k + x.u, n);
    assert n == x.u + x.v;
  }

  lemma AxisTick(c: int, strict: bool, p: Tracer, k: nat)
    requires Traceable(c) && Tracking(c, strict, LiveRun(strict, p, k)) && !LiveRun(strict, p, k).first
    ensures var x := LiveRun(strict, p, k);
      x.u > 0 && Half(LiveRun(strict, p, k + x.u - 1)) == Half(x) &&
      var q := LiveRun(strict, p, k + x.u); q.first && q.v == 0 && q.quadrant == x.quadrant + 1
  {
    hide LiveRun, Traceable, Crossed, OnCircle;
    var x := LiveRun(strict, p, k);
    ToTheAxis(c, strict, x);
    assert x.u > 0;
    RunsCompose(strict, p, k, x.u);
    RunsCompose(strict, p, k, x.u - 1);
  }

  lemma NextQuarter(c: nat, strict: bool, p: Tracer) returns (n: nat)
    requires Traceable(c) && Landmark(c, strict, p) && p.first
    ensures LiveRun(strict, p, n) == Turned(p, 1)
  {
    AnyLapFits(c);
    LandmarkIsStart(c, strict, p);
    assert Landmark(c, strict, Turned(p, 1)) && Before(p, Turned(p, 1));
    hide LiveRun, Landmark, LapFits, Entering, Reach, Startable;
    n := RunToLandmark(c, c, c, strict, p, Turned(p, 1));
  }

  lemma LandmarkIsStart(c: nat, strict: bool, p: Tracer)
    requires Traceable(c) && Landmark(c, strict, p)
    ensures Entering(c, strict, p) && Startable(c, strict, p) && Reach(c, c, p)
  {
    MajorBound(c, strict, p);
  }

  lemma AnyLapFits(c: nat)
    requires c >= 8
    ensures LapFits(c, c)
  {
    var q := Quarter(c);
    assert 2 * q >= 3 * c - 1;
    Products(q - 1, c, q + 2, 3);
    Products(q, c, q + 1, 3);
  }

  lemma CrossingTick(c: nat, strict: bool, p: Tracer, k: nat)
    requires Traceable(c) && Landmark(c, strict, p) && p.first
    requires k > 0 && Half(LiveRun(strict, p, k - 1)) == Half(p) < Half(LiveRun(strict, p, k))
    ensures var x := LiveRun(strict, p, k); Tracking(c, strict, x) && !x.first && Half(x) == Half(p) + 1 && x.v == p.v + k
  {
    LandmarkIsStart(c, strict, p);
    LiveRunTracks(c, strict, p, k - 1);
    LiveRunTracks(c, strict, p, k);
    StepsWithinOctant(strict, p, k - 1);
  }

  lemma AfterTheAxis(strict: bool, p: Tracer, m: nat, n: nat)
    requires p.first && LiveRun(strict, p, n) == Turned(p, 1) && m > 0
    requires var q := LiveRun(strict, p, m); q.first && q.v == 0 && q.quadrant == p.quadrant + 1
    requires Half(LiveRun(strict, p, m - 1)) < Half(p) + 2
    ensures n == m + p.v
  {
    hide LiveRun, LiveStep;
    var q := LiveRun(strict, p, m);
    if n < m {
      RunsCompose(strict, p, n, m - 1 - n);
      HalvesAreInOrder(strict, Turned(p, 1), m - 1 - n);
      assert false;
    }
    RunsCompose(strict, p, m, n - m);
    StepsWithinOctant(strict, q, n - m);
  }

  lemma LapTicks(strict: bool, p: Tracer, l: nat)
    requires LiveRun(strict, p, l) == Turned(p, 1)
    ensures LiveRun(strict, p, 4 * l) == Turned(p, 4)
  {
    hide LiveRun;
    RunOfTurned(strict, p, 1, l);
    RunsCompose(strict, p, l, l);
    assert LiveRun(strict, p, 2 * l) == Turned(p, 2);
    RunOfTurned(strict, p, 2, 2 * l);
    RunsCompose(strict, p, 2 * l, 2 * l);
  }

  // In between it does not come back.
  lemma NoReturnBefore(c: int, strict: bool, p: Tracer, n: nat, lap: nat)
    requires Traceable(c) && Landmark(c, strict, p) && Startable(c, strict, p)
    requires LiveRun(strict, p, lap) == Turned(p, 4) && 0 < n < lap
    ensures Place(strict, LiveRun(strict, p, n)) != Place(strict, p)
  {
    var s := LiveRun(strict, p, n);
    LiveRunTracks(c, strict, p, n);
    hide LiveRun, Startable, Traceable;
    if Place(strict, s) == Place(strict, p) {
      SamePlaceSameFrame(c, strict, s, p);
      InOneLap(strict, p, n, lap);
      assert false;
    }
  }

  lemma InOneLap(strict: bool, p: Tracer, n: nat, lap: nat)
    requires LiveRun(strict, p, lap) == Turned(p, 4) && 0 < n < lap
    ensures var s := LiveRun(strict, p, n); !(s.quadrant % 4 == p.quadrant % 4 && s == p.(quadrant := s.quadrant))
  {
    hide LiveRun;
    var s := LiveRun(strict, p, n);
    HalvesAreInOrder(strict, p, n);
    RunsCompose(strict, p, n, lap - n);
    HalvesAreInOrder(strict, s, lap - n);
    if s == p {
      StepsWithinOctant(strict, p, n);
    } else if s == Turned(p, 4) {
      StepsWithinOctant(strict, s, lap - n);
    }
  }

  lemma SamePlaceSameFrame(c: int, strict: bool, s: Tracer, p: Tracer)
    requires Tracking(c, strict, s) && Landmark(c, strict, p) && Place(strict, s) == Place(strict, p)
    ensures s.quadrant % 4 == p.quadrant % 4 && s == p.(quadrant := s.quadrant)
  {}

  // A full circle whose quarters take more than a quarter of the allowance is
  // not finished: the dry run uses it up, and after the ticks that are stored
  // then the head is not on the target.
  lemma LongLap(r: nat, x: int, y: int, p: Tracer, l: nat)
    requires Traceable(x * x + y * y) && r > 0
    requires Landmark(x * x + y * y, true, p) && Startable(x * x + y * y, true, p) && Place(true, p) == (x, y)
    requires LiveRun(true, p, l) == Turned(p, 1) && 6 * r < 4 * l
    ensures FirstReport(true, p, x, y, r, 6 * r, NO_MORE_STEPS)
    ensures Place(true, LiveRun(true, p, StoredCount(6 * r, NO_MORE_STEPS))) != (x, y)
  {
    hide LiveRun, Landmark, Startable, Traceable, Report, Place;
    LapTicks(true, p, l);
    assert 4 * l > 6 * r + 1;
    var c := x * x + y * y;
    NoReturnBefore(c, true, p, 6 * r + 1, 4 * l);
    NothingReported(c, p, x, y, 6 * r, 4 * l);
  }

  lemma NothingReported(c: int, p: Tracer, x: int, y: int, n: nat, lap: nat)
    requires c == x * x + y * y && Traceable(c) && Landmark(c, true, p) && Startable(c, true, p) && Place(true, p) == (x, y)
    requires LiveRun(true, p, lap) == Turned(p, 4) && n < lap
    ensures forall k: nat | 1 <= k <= n :: Report(true, p, x, y, k) == NO_HIT
  {
    hide LiveRun, Landmark, Startable, Traceable, Report, Place;
    forall k: nat | 1 <= k <= n
      ensures Report(true, p, x, y, k) == NO_HIT
    {
      NoReturnBefore(c, true, p, k, lap);
      DryReports(true, p, k, x, y);
    }
  }

  // ---- Six radii ----

  datatype Ends = Ends(fromx: int, fromy: int, tox: int, toy: int, ccw: bool)

  // The dry run of an arc in the window, whose larger squared radius is top,
  // ends like that.
  ghost predicate Counted(r: nat, top: nat, a: Ends, n: nat, code: int) {
    && (a.fromx != 0 || a.fromy != 0) && ArcInWindow(r, a.fromx, a.fromy, a.tox, a.toy, a.ccw)
    && LargerSquare(a.fromx, a.fromy, a.tox, a.toy) == top
    && FirstReport(!a.ccw, StartFrame(a.fromx, a.fromy, a.tox, a.toy, a.ccw), a.tox, a.toy, r, n, code)
  }

  // And after the ticks stored in its job the head is there.
  ghost predicate Arrives(a: Ends, n: nat, code: int)
    requires a.fromx != 0 || a.fromy != 0
  {
    var p := StartFrame(a.fromx, a.fromy, a.tox, a.toy, a.ccw);
    Place(!a.ccw, LiveRun(!a.ccw, p, StoredCount(n, code))) == (a.tox, a.toy)
  }

  ghost predicate AllArrive(r: nat, top: nat) {
    forall a: Ends, n: nat, code :: Counted(r, top, a, n, code) ==> Arrives(a, n, code)
  }

  // A full circle clockwise from (x, -y).
  ghost predicate TooLong(r: nat, x: int, y: int)
    requires x != 0
  {
    var p := StartFrame(x, -y, x, -y, false);
    && FirstReport(true, p, x, -y, r, 6 * r, NO_MORE_STEPS)
    && Place(true, LiveRun(true, p, StoredCount(6 * r, NO_MORE_STEPS))) != (x, -y)
  }

  // p crosses the diagonal at x after k ticks.
  ghost predicate Crossing(p: Tracer, k: nat, x: Tracer) {
    && p == Tracer(0, true, p.u, p.v, 0) && 0 < p.v <= p.u
    && k > 0 && LiveRun(true, p, k - 1).first && LiveRun(true, p, k - 1).quadrant == 0
    && LiveRun(true, p, k) == x && !x.first && x.quadrant == 0
  }

  lemma FromDiagonal(r: nat, c: nat, p: Tracer, k: nat, x: Tracer)
    requires c == p.u * p.u + p.v * p.v && Traceable(c) && r <= 13 && r * r <= c < (r + 1) * (r + 1)
    requires Crossing(p, k, x) && 6 * r < 4 * (x.u + x.v)
    ensures !AllArrive(r, c)
  {
    assert c >= MIN_SQUARE && r > 0 && 0 < p.v <= p.u;
    assert c == p.u * p.u + (-p.v) * (-p.v);
    hide TooLong, Traceable, AllArrive;
    OnCircleTooLong(r, c, p, k, x);
    OneMisses(r, p.u, p.v);
  }

  lemma OnCircleTooLong(r: nat, c: nat, p: Tracer, k: nat, x: Tracer)
    requires c == p.u * p.u + p.v * p.v == p.u * p.u + (-p.v) * (-p.v) && Traceable(c) && r > 0
    requires Crossing(p, k, x) && 6 * r < 4 * (x.u + x.v) && 0 < p.v <= p.u
    ensures TooLong(r, p.u, p.v)
  {
    hide LiveRun, Landmark, Startable, Traceable, Place, StartFrame, FirstReport;
    CircleStart(p);
    LandmarkIsStart(c, true, p);
    QuarterTicks(c, true, p, k);
    LongLap(r, p.u, -p.v, p, x.u + x.v);
  }

  lemma CircleStart(p: Tracer)
    requires p == Tracer(0, true, p.u, p.v, 0) && 0 < p.v <= p.u
    ensures Landmark(p.u * p.u + p.v * p.v, true, p)
    ensures StartFrame(p.u, -p.v, p.u, -p.v, false) == p && Place(true, p) == (p.u, -p.v)
  {}

  lemma LongLap80()
    ensures !AllArrive(8, 80)
  {
    var p := Tracer(0, true, 8, 4, 0);
    assert LiveRun(true, p, 0) == p;
    assert LiveRun(true, p, 1) == Tracer(0, true, 7, 5, 6);
    assert LiveRun(true, p, 2) == Tracer(0, true, 7, 6, -5);
    assert LiveRun(true, p, 3) == Tracer(0, false, 6, 7, -5);
    FromDiagonal(8, 80, p, 3, Tracer(0, false, 6, 7, -5));
  }

  lemma LongLap97()
    ensures !AllArrive(9, 97)
  {
    var p := Tracer(0, true, 9, 4, 0);
    assert LiveRun(true, p, 0) == p;
    assert LiveRun(true, p, 1) == Tracer(0, true, 9, 5, -9);
    assert LiveRun(true, p, 2) == Tracer(0, true, 8, 6, -3);
    assert LiveRun(true, p, 3) == Tracer(0, true, 7, 7, -1);
    assert LiveRun(true, p, 4) == Tracer(0, false, 6, 8, -3);
    FromDiagonal(9, 97, p, 4, Tracer(0, false, 6, 8, -3));
  }

  lemma LongLap98()
    ensures !AllArrive(9, 98)
  {
    var p := Tracer(0, true, 7, 7, 0);
    assert LiveRun(true, p, 0) == p;
    assert LiveRun(true, p, 1) == Tracer(0, false, 6, 8, -2);
    FromDiagonal(9, 98, p, 1, Tracer(0, false, 6, 8, -2));
  }

  lemma LongLap136()
    ensures !AllArrive(11, 136)
  {
    var p := Tracer(0, true, 10, 6, 0);
    assert LiveRun(true, p, 0) == p;
    assert LiveRun(true, p, 1) == Tracer(0, true, 9, 7, 6);
    assert LiveRun(true, p, 2) == Tracer(0, true, 9, 8, -9);
    assert LiveRun(true, p, 3) == Tracer(0, false, 8, 9, -9);
    FromDiagonal(11, 136, p, 3, Tracer(0, false, 8, 9, -9));
  }

  lemma LongLap137()
    ensures !AllArrive(11, 137)
  {
    var p := Tracer(0, true, 11, 4, 0);
    assert LiveRun(true, p, 0) == p;
    assert LiveRun(true, p, 1) == Tracer(0, true, 11, 5, -9);
    assert LiveRun(true, p, 2) == Tracer(0, true, 10, 6, 1);
    assert LiveRun(true, p, 3) == Tracer(0, true, 9, 7, 7);
    assert LiveRun(true, p, 4) == Tracer(0, true, 9, 8, -8);
    assert LiveRun(true, p, 5) == Tracer(0, false, 8, 9, -8);
    FromDiagonal(11, 137, p, 5, Tracer(0, false, 8, 9, -8));
  }

  lemma LongLap193()
    ensures !AllArrive(13, 193)
  {
    var p := Tracer(0, true, 12, 7, 0);
    assert LiveRun(true, p, 0) == p;
    assert LiveRun(true, p, 1) == Tracer(0, true, 11, 8, 8);
    assert LiveRun(true, p, 2) == Tracer(0, true, 11, 9, -9);
    assert LiveRun(true, p, 3) == Tracer(0, true, 10, 10, -7);
    assert LiveRun(true, p, 4) == Tracer(0, false, 9, 11, -9);
    FromDiagonal(13, 193, p, 4, Tracer(0, false, 9, 11, -9));
  }

  lemma LongLap194()
    ensures !AllArrive(13, 194)
  {
    var p := Tracer(0, true, 13, 5, 0);
    assert LiveRun(true, p, 0) == p;
    assert LiveRun(true, p, 1) == Tracer(0, true, 13, 6, -11);
    assert LiveRun(true, p, 2) == Tracer(0, true, 12, 7, 1);
    assert LiveRun(true, p, 3) == Tracer(0, true, 11, 8, 9);
    assert LiveRun(true, p, 4) == Tracer(0, true, 11, 9, -8);
    assert LiveRun(true, p, 5) == Tracer(0, true, 10, 10, -6);
    assert LiveRun(true, p, 6) == Tracer(0, false, 9, 11, -8);
    FromDiagonal(13, 194, p, 6, Tracer(0, false, 9, 11, -8));
  }

  // The squares for which a lap may take too long.
  const LONG_LAPS := {80, 97, 98, 136, 137, 193, 194}

  lemma LongLaps(r: nat, x: int, y: int)
    requires r * r <= x * x + y * y < (r + 1) * (r + 1) && MIN_SQUARE <= x * x + y * y
    ensures LapFits(r, x * x + y * y) <==> x * x + y * y !in LONG_LAPS
  {
    if r >= 17 {
      LargeCirclesFit(r, x * x + y * y);
    } else {
      SmallCircles(r, x * x + y * y);
      NotTwoSquares(x, y);
    }
  }

  lemma LargeCirclesFit(r: nat, top: nat)
    requires r >= 17 && r * r <= top < (r + 1) * (r + 1)
    ensures LapFits(r, top) && top !in LONG_LAPS
  {
    Products(r, 17, r, r);
    LimitAtLeast(r, Quarter(r));
    assert (r + 1) * (r + 1) == r * r + 2 * r + 1;
    hide LapLimit;
  }

  lemma LimitAtLeast(r: nat, q: int)
    requires r > 0 && 2 * q >= 3 * r - 1
    ensures 4 * LapLimit(q) >= 9 * (r * r) - 9
  {
    Products(2 * q + 1, 3 * r, 2 * q + 1, 3 * r);
    assert (2 * q + 1) * (2 * q + 1) == 4 * (q * (q + 1)) + 1;
    assert (q - 1) * (q + 2) == q * (q + 1) - 2;
    assert (3 * r) * (3 * r) == 9 * (r * r);
  }

  // Below the next square, but squares of no distance.
  const NO_SQUARES := {77, 78, 79, 91, 92, 93, 94, 95, 96, 99, 120, 135, 138, 139, 140, 141, 142, 143,
    190, 191, 192, 195, 252, 253, 254, 255}

  lemma SmallCircles(r: nat, top: nat)
    requires r <= 16 && r * r <= top < (r + 1) * (r + 1) && MIN_SQUARE <= top
    ensures top in LONG_LAPS ==> !LapFits(r, top)
    ensures !LapFits(r, top) ==> top in LONG_LAPS || top in NO_SQUARES
  {
    if r <= 7 { Squares(r + 1, 8); }
    assert r in {8, 9, 10, 11, 12, 13, 14, 15, 16};
    SmallLimit(r);
    hide LapLimit, Quarter;
  }

  lemma SmallLimit(r: nat)
    requires 8 <= r <= 16
    ensures LapLimit(Quarter(r)) ==
      if r == 8 then 154 else if r == 9 then 182 else if r == 10 then 240 else if r == 11 then 270
      else if r == 12 then 340 else if r == 13 then 380 else if r == 14 then 462 else if r == 15 then 504 else 598
  {}

  lemma NotTwoSquares(x: int, y: int)
    ensures x * x + y * y !in NO_SQUARES
  {
    IsSquare(x);
    IsSquare(y);
    SumsOfSquares(x * x, y * y);
  }

  const SQUARES := {0, 1, 4, 9, 16, 25, 36, 49, 64, 81, 100, 121, 144, 169, 196, 225}

  lemma IsSquare(x: int)
    ensures x * x in SQUARES || x * x >= 256
  {
    if Abs(x) >= 16 {
      Squares(16, Abs(x));
    } else {
      assert Abs(x) in {0, 1, 2, 3, 4, 5, 6, 7, 8, 9, 10, 11, 12, 13, 14, 15};
      assert x * x == Abs(x) * Abs(x);
    }
  }

  lemma SumsOfSquares(a: nat, b: nat)
    requires a in SQUARES || a >= 256
    requires b in SQUARES || b >= 256
    ensures a + b !in NO_SQUARES
  {}

  // The allowance of six radii is enough for a radius if and only if that is
  // not one of seven.
  lemma SixRadii(r: nat, x: int, y: int)
    requires r * r <= x * x + y * y < (r + 1) * (r + 1) && MIN_SQUARE <= x * x + y * y && 6 * r + 1 < WIDTH
    ensures AllArrive(r, x * x + y * y) <==> x * x + y * y !in LONG_LAPS
  {
    LongLaps(r, x, y);
    if x * x + y * y in LONG_LAPS {
      SomeMisses(r, x * x + y * y);
    } else {
      AllInReach(r, x * x + y * y);
    }
  }

  lemma AllInReach(r: nat, top: nat)
    requires LapFits(r, top)
    ensures AllArrive(r, top)
  {
    hide FirstReport, StartFrame, Place, LiveRun, ArcInWindow;
    forall a: Ends, n: nat, code | Counted(r, top, a, n, code)
      ensures Arrives(a, n, code)
    {
      ExactMatch(r, a.fromx, a.fromy, a.tox, a.toy, a.ccw, n, code);
    }
  }

  lemma SomeMisses(r: nat, top: nat)
    requires top in LONG_LAPS && r * r <= top < (r + 1) * (r + 1)
    ensures !AllArrive(r, top)
  {
    RootOfLong(r, top);
    hide AllArrive;
    if top == 80 {
      LongLap80();
    } else if top == 97 {
      LongLap97();
    } else if top == 98 {
      LongLap98();
    } else if top == 136 {
      LongLap136();
    } else if top == 137 {
      LongLap137();
    } else if top == 193 {
      LongLap193();
    } else {
      LongLap194();
    }
  }

  lemma RootOfLong(r: nat, top: nat)
    requires top in LONG_LAPS && r * r <= top < (r + 1) * (r + 1)
    ensures r == if top == 80 then 8 else if top <= 98 then 9 else if top <= 137 then 11 else 13
  {
    if r >= 14 { Squares(14, r); }
    if r <= 7 { Squares(r + 1, 8); }
    assert r in {8, 9, 10, 11, 12, 13};
  }

  lemma OneMisses(r: nat, x: int, y: int)
    requires 0 < y <= x && r * r <= x * x + y * y < (r + 1) * (r + 1) && MIN_SQUARE <= x * x + y * y && r <= 13
    requires TooLong(r, x, y)
    ensures !AllArrive(r, x * x + y * y)
  {
    var a := Ends(x, -y, x, -y, false);
    hide FirstReport, StartFrame, Place, LiveRun;
    assert x * x + (-y) * (-y) == x * x + y * y;
    assert ArcInWindow(r, x, -y, x, -y, false);
    hide ArcInWindow;
    assert Counted(r, x * x + y * y, a, 6 * r, NO_MORE_STEPS);
    assert !Arrives(a, 6 * r, NO_MORE_STEPS);
  }

  // Closer to the centre than MIN_SQUARE it is not only the length of a lap: the
  // dry run of a full circle of radius two runs wide, and is not back within its
  // allowance.  The interrupt is back with the last tick of that, but is given
  // one more.
  lemma TinyCircleRunsOut()
    ensures var p := StartFrame(2, 0, 2, 0, true);
      && FirstReport(false, p, 2, 0, 2, 12, NO_MORE_STEPS) && StoredCount(12, NO_MORE_STEPS) == 13
      && Place(false, LiveRun(false, p, 12)) == (2, 0) && Place(false, LiveRun(false, p, 13)) == (2, 1)
  {
    hide LiveRun, DryRun, Report, Place, TinyCircle;
    var p := StartFrame(2, 0, 2, 0, true);
    TinyCircleStart(p);
    hide StartFrame;
    TinyCircleQuiet(p);
    TinyCircleLive(p);
  }

  lemma TinyCircleStart(p: Tracer)
    requires p == StartFrame(2, 0, 2, 0, true)
    ensures p == Tracer(0, true, 2, 0, 0) == TinyCircle(0)
  {}

  lemma TinyCircleLive(p: Tracer)
    requires p == Tracer(0, true, 2, 0, 0)
    ensures Place(false, LiveRun(false, p, 12)) == (2, 0) && Place(false, LiveRun(false, p, 13)) == (2, 1)
  {
    hide LiveRun;
    TinyCircleQuarter(p);
    LapTicks(false, p, 3);
    OneMoreTick(p, 12);
    assert LiveStep(false, Turned(p, 4)) == Tracer(4, true, 2, 1, -1);
  }

  lemma OneMoreTick(p: Tracer, n: nat)
    ensures LiveRun(false, p, n + 1) == LiveStep(false, LiveRun(false, p, n))
  {}

  lemma TinyCircleQuarter(p: Tracer)
    requires p == Tracer(0, true, 2, 0, 0)
    ensures LiveRun(false, p, 3) == Turned(p, 1)
  {
    hide LiveRun;
    LiveRunOfNone(p);
    OneMoreTick(p, 0);
    OneMoreTick(p, 1);
    OneMoreTick(p, 2);
  }

  lemma LiveRunOfNone(p: Tracer)
    ensures LiveRun(false, p, 0) == p
  {}

  lemma TinyCircleQuiet(p: Tracer)
    requires p == TinyCircle(0)
    ensures Quiet(false, p, 2, 0, 12)
  {
    forall k: nat | 1 <= k <= 12
      ensures Report(false, p, 2, 0, k) == NO_HIT
    {
      TinyCircleRun(p, k);
      TinyCircleMisses(k);
    }
  }

  function TinyCircle(k: nat): Tracer {
    match k
    case 0 => Tracer(0, true, 2, 0, 0)
    case 1 => Tracer(0, true, 2, 1, -1)
    case 2 => Tracer(0, true, 1, 2, -1)
    case 3 => Tracer(0, false, 0, 3, -5)
    case 4 => Tracer(1, true, 3, 1, -6)
    case 5 => Tracer(1, true, 2, 2, -4)
    case 6 => Tracer(1, false, 1, 3, -6)
    case 7 => Tracer(1, false, 0, 3, -5)
    case 8 => Tracer(2, true, 3, 1, -6)
    case 9 => Tracer(2, true, 2, 2, -4)
    case 10 => Tracer(2, false, 1, 3, -6)
    case 11 => Tracer(2, false, 0, 3, -5)
    case _ => Tracer(3, true, 3, 1, -6)
  }

  lemma TinyCircleStep(k: nat)
    requires k < 12
    ensures DryStep(false, TinyCircle(k)) == TinyCircle(k + 1)
  {}

  lemma TinyCircleMisses(k: nat)
    requires 1 <= k <= 12
    ensures var at := Place(false, TinyCircle(k)); HitTest(at.0, at.1, 2, 0) == NO_HIT
  {}

  lemma {:induction false} TinyCircleRun(p: Tracer, k: nat)
    requires p == TinyCircle(0) && k <= 12
    ensures DryRun(false, p, k) == TinyCircle(k)
  {
    if k > 0 {
      TinyCircleRun(p, k - 1);
      TinyCircleStep(k - 1);
    }
  }
}
