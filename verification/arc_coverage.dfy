// The tracer runs through every lattice point of the target circle: nothing
// is skipped, and one lap takes at most six radii of ticks.
module ArcCoverage {
  import opened Arithmetic
  import opened ArcTracer

  // A lattice point of the circle, labelled for the frame that contains it.
  ghost predicate Landmark(c: int, strict: bool, t: Tracer) {
    && t.err == 0
    && OnCircle(c, t)
    && 0 < t.u && 0 <= t.v
    && t.first == !Crossed(strict, t.u, t.v)
  }

  // p has not yet come to t.
  predicate Before(p: Tracer, t: Tracer) {
    || p.quadrant < t.quadrant
    || (p.quadrant == t.quadrant && p.first && !t.first)
    || (p.quadrant == t.quadrant && p.first == t.first &&
        if p.first then p.v < t.v else p.u > t.u)
  }

  // On one row (or column) only one point is within reach of err.
  lemma OnePerRow(a: int, b: int, e: int)
    requires 0 < a && 0 < b
    requires b * b - a * a == e
    requires -2 * a + 1 < e <= 2 * a
    ensures a == b
  {
    if b > a {
      Squares(a + 1, b);
    } else if b < a {
      Squares(b, a - 1);
    }
  }

  // The landmarks of the first half lie below the row where the rule changes,
  // those of the second half beyond it.
  lemma NoFirstBeyondDiagonal(c: int, strict: bool, u: int, v: int, err: int, t: Tracer)
    requires 0 < u && Crossed(strict, u, v) && err < v
    requires err + u * u + v * v == c
    requires Landmark(c, strict, t) && t.first
    ensures t.v < v
  {
    if t.v >= v {
      Squares(v, t.v);
      if strict {
        Squares(u, v - 1);
        assert (v - 1) * (v - 1) == v * v - 2 * v + 1;
        Squares(v, t.u);
      } else {
        Squares(u, v);
        assert (v + 1) * (v + 1) == v * v + 2 * v + 1;
        Squares(v + 1, t.u);
      }
      assert false;
    }
  }

  lemma NoSecondBeforeDiagonal(c: int, strict: bool, u: int, v: int, err: int, t: Tracer)
    requires 0 < u && 0 < v <= u + (if strict then 2 else 1) && err < v
    requires err + u * u + v * v == c
    requires Landmark(c, strict, t) && !t.first
    ensures t.u <= u
  {
    if t.u > u {
      Squares(u + 1, t.u);
      assert (u + 1) * (u + 1) == u * u + 2 * u + 1;
      if strict {
        Squares(u + 2, t.v);
        assert (u + 2) * (u + 2) == u * u + 4 * u + 4;
        Squares(v, u + 2);
      } else {
        Squares(u + 1, t.v);
        Squares(v, u + 1);
      }
      assert false;
    }
  }

  lemma NothingSkipped(c: int, strict: bool, p: Tracer, t: Tracer)
    requires Traceable(c)
    requires Entering(c, strict, p)
    requires Landmark(c, strict, t)
    requires Before(p, t)
    ensures LiveStep(strict, p) == t || Before(LiveStep(strict, p), t)
  {
    var p' := LiveStep(strict, p);
    LiveStepTracks(c, strict, p);
    MajorBound(c, strict, p);
    MajorBound(c, strict, p');
    if !Before(p', t) {
      if p'.first {
        assert p'.v == t.v;
        OnePerRow(p'.u, t.u, p'.err);
      } else if p.first {
        if t.first {
          NoFirstBeyondDiagonal(c, strict, p'.u, p'.v, p'.err, t);
        } else {
          NoSecondBeforeDiagonal(c, strict, p'.u, p'.v, p'.err, t);
        }
        assert p'.u == t.u;
        OnePerRow(p'.v, t.v, p'.err);
      } else {
        assert p'.u == t.u;
        OnePerRow(p'.v, t.v, p'.err);
      }
    }
  }

  lemma NothingSkippedFromAxis(c: int, strict: bool, p: Tracer, t: Tracer)
    requires Traceable(c)
    requires AxisStart(c, strict, p)
    requires Landmark(c, strict, t)
    requires Before(Turn(p), t)
    ensures LiveStep(strict, p) == t || Before(LiveStep(strict, p), t)
  {
    var p' := LiveStep(strict, p);
    LiveStepTracks(c, strict, p);
    MajorBound(c, strict, p');
    if !Before(p', t) {
      assert p'.v == t.v;
      OnePerRow(p'.u, t.u, p'.err);
    }
  }

  // ---- How long a lap takes ----

  function Quarter(r: nat): nat { 3 * r / 2 }

  // Ticks of quadrants passed, a quadrant counted with the same length always.
  function Clock(r: nat, p: Tracer): int {
    Quarter(r) * p.quadrant + if p.first then p.v else Quarter(r) - p.u
  }

  // Six radii are enough for a lap on circles of a squared radius up to top:
  // at the diagonal the coordinates add up to no more than a quarter of that.
  predicate LapFits(r: nat, top: nat) { 2 * top < LapLimit(Quarter(r)) }

  function LapLimit(q: int): int { if q % 2 == 0 then (q - 1) * (q + 2) else q * (q + 1) }

  // top is the larger of the squared radii of start and target.
  ghost predicate Reach(top: nat, c: int, p: Tracer) {
    && c <= top
    && (|| -Major(p) <= p.err
        || (p.err == -Major(p) - 1 && (p.first ==> p.v == 1))
        || c - p.err <= top + (if !p.first && p.u >= 2 then 2 else if p.first && p.v == 1 then 1 else 0))
  }

  lemma SumBound(r: nat, top: nat, a: nat, b: nat)
    requires LapFits(r, top)
    requires a >= b
    requires a * a + b * b - a - (if a == b then 0 else 1) <= top
    ensures a + b <= Quarter(r)
  {
    var s, d := a + b, a - b;
    SquaresBySum(a, b);
    Excess(d);
    if s > Quarter(r) {
      LongSum(Quarter(r), s);
      SumTooLong(top, LapLimit(Quarter(r)), a, b, a * a + b * b, s * s, d * d);
      assert false;
    }
  }

  lemma SumTooLong(top: int, limit: int, a: nat, b: nat, squares: int, s2: int, d2: int)
    requires a >= b && 2 * squares == s2 + d2
    requires d2 >= a - b && (a - b >= 2 ==> d2 >= a - b + 2)
    requires s2 - (a + b) - (if (a + b) % 2 == 0 then 0 else 2) >= limit
    requires 2 * top < limit
    ensures squares - a - (if a == b then 0 else 1) > top
  {
    assert a + b == (a - b) + 2 * b;
  }

  lemma Excess(d: nat)
    ensures d * d >= d && (d >= 2 ==> d * d >= d + 2)
  {
    if d >= 2 {
      Products(d, 2, d, d);
    }
  }

  lemma SquaresBySum(a: int, b: int)
    ensures 2 * (a * a + b * b) == (a + b) * (a + b) + (a - b) * (a - b)
  {}

  lemma LongSum(q: int, s: int)
    requires 0 <= q < s
    ensures s * s - s - (if s % 2 == 0 then 0 else 2) >= LapLimit(q)
  {
    assert s * s - s == s * (s - 1);
    assert (q - 1) * (q + 2) == q * (q + 1) - 2;
    Products(s, q + 1, s - 1, q);
    if s > q + 1 {
      Products(s, q + 2, s - 1, q + 1);
      assert (q + 2) * (q + 1) == q * (q + 1) + 2 * q + 2;
    }
  }

  lemma Products(a: int, b: int, x: int, y: int)
    requires a >= b >= 0 && x >= y >= 0
    ensures a * x >= b * y
  {
    assert a * x - b * y == (a - b) * x + b * (x - y);
  }

  lemma ReachLasts(top: nat, c: int, strict: bool, p: Tracer)
    requires Traceable(c)
    requires Entering(c, strict, p) && Reach(top, c, p)
    ensures Reach(top, c, LiveStep(strict, p))
  {
    MajorBound(c, strict, p);
    LiveStepTracks(c, strict, p);
    hide OnCircle;
  }

  // Where the half changes, the coordinates add up to no more than a quarter.
  lemma SumsInReach(r: nat, top: nat, c: int, strict: bool, p: Tracer)
    requires Traceable(c) && LapFits(r, top)
    requires Entering(c, strict, p) && Reach(top, c, p)
    ensures var p' := LiveStep(strict, p);
      p.first && !p'.first ==> if p.err <= 2 * p.v - p.u then p.u + p.v <= Quarter(r) else p'.u + p'.v <= Quarter(r)
  {
    var p' := LiveStep(strict, p);
    if p.first && !p'.first {
      ReachLasts(top, c, strict, p);
      LiveStepTracks(c, strict, p);
      if p.err <= 2 * p.v - p.u {
        SumBound(r, top, p.u, p.v);
      } else {
        SumBound(r, top, p'.v, p'.u);
      }
    }
  }

  lemma ClockAdvances(r: nat, top: nat, c: int, strict: bool, p: Tracer)
    requires Traceable(c) && LapFits(r, top)
    requires Entering(c, strict, p) && Reach(top, c, p)
    ensures Reach(top, c, LiveStep(strict, p))
    ensures Clock(r, LiveStep(strict, p)) > Clock(r, p)
  {
    ReachLasts(top, c, strict, p);
    hide Reach;
    var p' := LiveStep(strict, p);
    MajorBound(c, strict, p);
    LiveStepTracks(c, strict, p);
    MajorBound(c, strict, p');
    SumsInReach(r, top, c, strict, p);
    hide OnCircle;
    if !p.first && p'.first {
      assert Quarter(r) * p'.quadrant == Quarter(r) * p.quadrant + Quarter(r);
    }
  }

  lemma {:induction false} LiveRunFromStep(strict: bool, p: Tracer, n: nat)
    ensures LiveRun(strict, p, n + 1) == LiveRun(strict, LiveStep(strict, p), n)
  {
    if n == 0 {
      assert LiveRun(strict, p, 0) == p;
    } else {
      LiveRunFromStep(strict, p, n - 1);
    }
  }

  lemma {:induction false} RunToLandmark(r: nat, top: nat, c: int, strict: bool, p: Tracer, t: Tracer) returns (n: nat)
    requires Traceable(c) && LapFits(r, top)
    requires Entering(c, strict, p) && Reach(top, c, p)
    requires Landmark(c, strict, t) && Before(p, t)
    ensures LiveRun(strict, p, n) == t
    ensures 1 <= n <= Clock(r, t) - Clock(r, p)
    decreases t.quadrant - p.quadrant, p.first, if p.first then p.u - p.v else p.u
  {
    var p' := LiveStep(strict, p);
    NothingSkipped(c, strict, p, t);
    ClockAdvances(r, top, c, strict, p);
    LiveStepTracks(c, strict, p);
    if p' == t {
      assert LiveRun(strict, p, 0) == p;
      n := 1;
    } else {
      n := RunToLandmark(r, top, c, strict, p', t);
      LiveRunFromStep(strict, p, n);
      n := n + 1;
    }
  }

  function Minor(p: Tracer): int {
    if p.first then p.v else p.u
  }

  lemma MinorSquare(strict: bool, p: Tracer)
    requires 0 <= p.u && 0 <= p.v
    requires p.first == !Crossed(strict, p.u, p.v)
    ensures 0 <= 2 * (Minor(p) * Minor(p)) <= p.u * p.u + p.v * p.v
  {
    Squares(Minor(p), Major(p));
  }

  // Two points of the circle: the sum of their minor coordinates does not
  // exceed the quarter.
  lemma MinorSum(r: nat, top: nat, a: nat, b: nat)
    requires LapFits(r, top)
    requires 2 * (a * a) <= top && 2 * (b * b) <= top
    ensures a + b <= Quarter(r)
  {
    var m := if a > b then a else b;
    if 2 * m > Quarter(r) {
      LongDouble(Quarter(r), m);
      assert false;
    }
  }

  lemma LongDouble(q: int, m: int)
    requires 0 <= q < 2 * m
    ensures 4 * (m * m) > LapLimit(q)
  {
    Squares(q + 1, 2 * m);
    assert (2 * m) * (2 * m) == 4 * (m * m);
    assert (q + 1) * (q + 1) == q * (q + 1) + q + 1;
    assert (q - 1) * (q + 2) == q * (q + 1) - 2;
  }

  lemma ClockInQuarter(r: nat, p: Tracer)
    requires 0 <= Minor(p) <= Quarter(r)
    ensures Quarter(r) * p.quadrant <= Clock(r, p) <= Quarter(r) * (p.quadrant + 1)
  {
    assert Quarter(r) * (p.quadrant + 1) == Quarter(r) * p.quadrant + Quarter(r);
  }

  // The next time the tracer comes to t is at most one lap away.
  lemma LapBound(r: nat, p: Tracer, t: Tracer)
    requires 0 <= Minor(p) && 0 <= Minor(t) && Minor(p) + Minor(t) <= Quarter(r)
    requires t.quadrant < 4
    ensures Before(p, t) ==> Clock(r, t) - Clock(r, p) <= 4 * Quarter(r)
    ensures !Before(p, t) ==> Clock(r, t) <= Clock(r, p)
  {
    ClockInQuarter(r, p);
    ClockInQuarter(r, t);
    if Before(p, t) {
      QuarterTimes(Quarter(r), t.quadrant + 1, 4);
      QuarterTimes(Quarter(r), 0, p.quadrant);
    } else if p.quadrant > t.quadrant {
      QuarterTimes(Quarter(r), t.quadrant + 1, p.quadrant);
    }
  }

  lemma QuarterTimes(k: nat, a: nat, b: nat)
    requires a <= b
    ensures k * a <= k * b
  {
    Products(b, a, k, k);
  }

  // The same point, so many quarters of the circle on.
  function Turned(t: Tracer, quarters: nat): Tracer {
    t.(quadrant := t.quadrant + quarters)
  }

  // The first time the tracer will come to t, counted from p.
  lemma NextPass(r: nat, p: Tracer, t: Tracer) returns (lap: nat)
    requires 0 <= Minor(p) && 0 <= Minor(t) && Minor(p) + Minor(t) <= Quarter(r)
    requires p.quadrant <= 4 && t.quadrant < 4
    ensures lap <= 2
    ensures Before(p, Turned(t, 4 * lap))
    ensures Clock(r, Turned(t, 4 * lap)) - Clock(r, p) <= 4 * Quarter(r)
  {
    LapBound(r, p, t);
    assert Quarter(r) * (t.quadrant + 4) == Quarter(r) * t.quadrant + 4 * Quarter(r);
    if Before(p, t) {
      lap := 0;
      assert Turned(t, 0) == t;
    } else if Before(p, Turned(t, 4)) {
      lap := 1;
    } else {
      lap := 2;
      assert Quarter(r) * (t.quadrant + 8) == Quarter(r) * (t.quadrant + 4) + 4 * Quarter(r);
      assert t.quadrant + 4 == p.quadrant;
    }
  }

  lemma FirstStepFromAxis(r: nat, top: nat, c: int, strict: bool, p: Tracer)
    requires AxisStart(c, strict, p)
    requires c <= top && c - p.err <= top
    ensures Reach(top, c, LiveStep(strict, p))
    ensures Clock(r, LiveStep(strict, p)) == Clock(r, Turn(p)) + 1
  {
    var p' := LiveStep(strict, p);
    if p.err > p.v {
      assert p' == Tracer(p.quadrant + 1, true, p.v + 1, 1, p.err - 2 * p.v - 2);
    } else {
      assert p' == Tracer(p.quadrant + 1, true, p.v, 1, p.err - 1);
    }
  }

  lemma RunFromStart(r: nat, top: nat, c: int, strict: bool, p: Tracer, t: Tracer) returns (n: nat)
    requires Traceable(c) && LapFits(r, top)
    requires Startable(c, strict, p)
    requires c <= top && c - p.err <= top
    requires Landmark(c, strict, t)
    requires Before(if p.u == 0 then Turn(p) else p, t)
    ensures LiveRun(strict, p, n) == t
    ensures 1 <= n <= Clock(r, t) - Clock(r, if p.u == 0 then Turn(p) else p)
  {
    MajorBound(c, strict, p);
    if p.u > 0 {
      n := RunToLandmark(r, top, c, strict, p, t);
    } else {
      var p' := LiveStep(strict, p);
      FirstStepFromAxis(r, top, c, strict, p);
      NothingSkippedFromAxis(c, strict, p, t);
      LiveStepTracks(c, strict, p);
      if p' == t {
        n := 1;
        assert LiveRun(strict, p, 0) == p;
      } else {
        n := RunToLandmark(r, top, c, strict, p', t);
        LiveRunFromStep(strict, p, n);
        n := n + 1;
      }
    }
  }

  // "Always exact match": from any start the interrupt may be given, in either
  // direction, the run comes exactly to the target, within the six radii of
  // ticks that the planner allows.
  lemma ReachesTarget(r: nat, top: nat, c: int, strict: bool, p: Tracer, t: Tracer) returns (n: nat, lap: nat)
    requires Traceable(c) && LapFits(r, top)
    requires Startable(c, strict, p) && p.quadrant < 4
    requires c <= top && c - p.err <= top
    requires Landmark(c, strict, t) && t.quadrant < 4
    ensures 1 <= n <= 6 * r
    ensures lap <= 2
    ensures LiveRun(strict, p, n) == Turned(t, 4 * lap)
  {
    MajorBound(c, strict, p);
    var start := if p.u == 0 then Turn(p) else p;
    MinorSquare(strict, start);
    MinorSquare(strict, t);
    MinorSum(r, top, Minor(start), Minor(t));
    lap := NextPass(r, start, t);
    assert Landmark(c, strict, Turned(t, 4 * lap));
    n := RunFromStart(r, top, c, strict, p, Turned(t, 4 * lap));
  }

  // ---- Arcs within an octant ----

  // The half quadrants in the order in which they are passed.
  function Half(p: Tracer): int { 2 * p.quadrant + if p.first then 0 else 1 }

  // How far it has come along its half.
  function Along(p: Tracer): int { if p.first then p.v else -p.u }

  lemma StepGoesOn(strict: bool, p: Tracer)
    ensures Half(LiveStep(strict, p)) >= Half(p)
    ensures Half(LiveStep(strict, p)) == Half(p) ==> Along(LiveStep(strict, p)) == Along(p) + 1
  {}

  lemma {:induction false} HalvesAreInOrder(strict: bool, p: Tracer, n: nat)
    ensures Half(LiveRun(strict, p, n)) >= Half(p)
  {
    hide LiveStep, Half;
    if n > 0 {
      HalvesAreInOrder(strict, p, n - 1);
      StepGoesOn(strict, LiveRun(strict, p, n - 1));
    }
  }

  // An arc that does not leave its octant takes as many steps as the
  // coordinate along which the octant is traced changes.
  lemma {:induction false} StepsWithinOctant(strict: bool, p: Tracer, n: nat)
    requires Half(LiveRun(strict, p, n)) == Half(p)
    ensures n == Along(LiveRun(strict, p, n)) - Along(p)
  {
    hide LiveStep, Half, Along;
    if n > 0 {
      HalvesAreInOrder(strict, p, n - 1);
      StepGoesOn(strict, LiveRun(strict, p, n - 1));
      StepsWithinOctant(strict, p, n - 1);
    }
  }
}
