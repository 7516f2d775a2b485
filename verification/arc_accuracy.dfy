// How far the head strays from the circle, that it never turns back, and that
// the numbers involved fit the registers that hold them.
module ArcAccuracy {
  import opened Arithmetic
  import opened ArcTracer
  import opened ArcCoverage
  import opened ArcOctants
  import opened ArcDryRun
  import opened Stepper
  import Lengths

  function Cross(a: (int, int), b: (int, int)): int {
    a.0 * b.1 - a.1 * b.0
  }

  lemma CrossInFrame(clockwise: bool, p: Tracer, q: Tracer)
    requires p.quadrant == q.quadrant
    ensures Cross(Place(clockwise, p), Place(clockwise, q)) ==
      if clockwise then p.v * q.u - p.u * q.v else p.u * q.v - p.v * q.u
  {
    Negated(p.u, q.v);
    Negated(p.v, q.u);
    Negated(p.v, q.v);
    Negated(p.u, q.u);
  }

  lemma Negated(a: int, b: int)
    ensures (-a) * b == a * (-b) == -(a * b) && (-a) * (-b) == a * b
  {}

  // The direction of travel never reverses: seen from the centre, consecutive
  // points are always on the same side of each other.
  lemma AngleAdvances(c: int, clockwise: bool, p: Tracer)
    requires Traceable(c)
    requires Startable(c, clockwise, p)
    ensures var turn := Cross(Place(clockwise, p), Place(clockwise, LiveStep(clockwise, p)));
      if clockwise then turn < 0 else turn > 0
  {
    var a := Advance(p);
    MajorBound(c, clockwise, p);
    CrossInFrame(clockwise, p, a);
    LabelKeepsPlace(clockwise, a);
    TurnOfAdvance(p.u, p.v, a.u, a.v);
  }

  lemma TurnOfAdvance(u: int, v: int, u': int, v': int)
    requires u >= 0 && v >= 0
    requires (v' == v + 1 && u' in {u, u - 1} && u > 0) || (u' == u - 1 && v' in {v, v + 1} && v > 0)
    ensures u * v' - v * u' > 0
  {
    assert u * (v + 1) == u * v + u;
    assert v * (u - 1) == u * v - v;
  }

  lemma {:induction false} LiveRunReaches(top: nat, c: int, strict: bool, p: Tracer, n: nat)
    requires Traceable(c)
    requires Startable(c, strict, p)
    requires c <= top && c - p.err <= top
    ensures n == 0 || Reach(top, c, LiveRun(strict, p, n))
  {
    if n > 0 {
      var q := LiveRun(strict, p, n - 1);
      LiveRunTracks(c, strict, p, n - 1);
      if AxisStart(c, strict, q) {
        MajorBound(c, strict, q);
        if n - 1 > 0 {
          assert false;
        }
        FirstStepFromAxis(0, top, c, strict, q);
      } else {
        LiveRunReaches(top, c, strict, p, n - 1);
        assert Reach(top, c, q);
        ReachLasts(top, c, strict, q);
      }
    }
  }

  // Coordinates never exceed the radius by more than a step.
  lemma ReachBoundsMajor(r: nat, top: nat, c: int, strict: bool, p: Tracer)
    requires Traceable(c) && top < (r + 1) * (r + 1)
    requires Startable(c, strict, p) && Reach(top, c, p)
    ensures Major(p) <= r + 1
  {
    var m := Major(p);
    if m >= r + 2 {
      MajorBound(c, strict, p);
      assert m * (m - 1) == m * m - m;
      assert (r + 2) * (r + 1) == r * r + 3 * r + 2;
      assert m * m <= p.u * p.u + p.v * p.v;
      Products(m, r + 2, m - 1, r + 1);
    }
  }

  const INT24 := 0x80_0000

  // Every quantity the interrupt compares fits 24 signed bits, for arcs of a
  // radius up to some 35 metres.
  lemma ComparisonsFit(r: nat, top: nat, c: int, strict: bool, p: Tracer, n: nat)
    requires Traceable(c) && top < (r + 1) * (r + 1) && 3 * (r + 1) < INT24
    requires Startable(c, strict, p)
    requires c <= top && c - p.err <= top
    ensures var at := Place(strict, LiveRun(strict, p, n));
      && -INT24 < 2 * at.0 < INT24 && -INT24 < 2 * at.1 < INT24
      && -INT24 < 2 * at.0 - at.1 < INT24 && -INT24 < 2 * at.0 + at.1 < INT24
      && -INT24 < 2 * at.1 - at.0 < INT24 && -INT24 < 2 * at.1 + at.0 < INT24
      && -INT24 < LiveRun(strict, p, n).err < INT24
  {
    var q := LiveRun(strict, p, n);
    LiveRunTracks(c, strict, p, n);
    LiveRunReaches(top, c, strict, p, n);
    assert Reach(top, c, q);
    ReachBoundsMajor(r, top, c, strict, q);
    PlaceMax(strict, q);
  }

  // ---- The timer ----

  const F_CPU := 16_000_000
  const MIN_SPEED := 5000
  const MAX_SPEED := 1_000_000 * 8000 / Lengths.XY_STEPS_PER_M

  // Feed rate F (thousandths of a millimetre per minute) to micrometres per second.
  function ClampedSpeed(feed: int): int {
    var s := Max((feed + 30) / 60, MIN_SPEED);
    if s < MAX_SPEED then s else MAX_SPEED
  }

  function ArcBaseTicks(speed: int): int
    requires speed > 0
  {
    F_CPU * 1_000_000 / (Lengths.XY_STEPS_PER_M * speed)
  }

  lemma BaseTicksInRange(feed: int)
    requires feed > 0
    ensures 2000 <= ArcBaseTicks(ClampedSpeed(feed)) <= 40404
  {
    var d := Lengths.XY_STEPS_PER_M * ClampedSpeed(feed);
    assert 16_000_000_000_000 / d >= 2000 by { QuotientAtLeast(16_000_000_000_000, d, 2000); }
    assert 16_000_000_000_000 / d <= 40404 by { QuotientAtMost(16_000_000_000_000, d, 40404); }
  }

  // At a speed in micrometres a second, a tick of the timer more would be too
  // much for a step.
  lemma BaseTicksAreAStep(speed: int)
    requires speed > 0
    ensures ArcBaseTicks(speed) * (79_220 * speed) <= 16_000_000 * 1_000_000 < (ArcBaseTicks(speed) + 1) * (79_220 * speed)
  {
    QuotientOf(16_000_000_000_000, 79_220 * speed);
  }

  lemma QuotientOf(n: int, d: int)
    requires 0 < d
    ensures n / d * d <= n < (n / d + 1) * d
  {
    assert n == d * (n / d) + n % d;
    assert (n / d + 1) * d == d * (n / d) + d;
  }

  // The speed is the feed rate to the nearest micrometre a second, between the
  // slowest and the fastest one.
  lemma SpeedOfFeed(feed: int)
    ensures var s := ClampedSpeed(feed);
      && 5000 <= s <= 100_984
      && (5000 < s < 100_984 ==> -30 < 60 * s - feed <= 30)
      && (s == 5000 ==> feed < 60 * 5001 - 30) && (s == 100_984 ==> feed >= 60 * 100_984 - 30)
  {}

  lemma BaseTicksFit(speed: int)
    requires 5000 <= speed <= 100_984
    ensures 2000 <= ArcBaseTicks(speed) <= 40404
  {
    QuotientAtLeast(16_000_000_000_000, 79_220 * speed, 2000);
    QuotientAtMost(16_000_000_000_000, 79_220 * speed, 40404);
  }

  lemma QuotientAtLeast(a: int, d: int, k: int)
    requires 0 < d && 0 <= a && 0 <= k && k * d <= a
    ensures a / d >= k
  {
    var q := a / d;
    assert q * d > a - d;
    if q < k {
      Products(k, q + 1, d, d);
    }
  }

  lemma QuotientAtMost(a: int, d: int, k: int)
    requires 0 < d && 0 <= k && a < (k + 1) * d
    ensures a / d <= k
  {
    var q := a / d;
    assert q * d <= a;
    if q > k {
      Products(q, k + 1, d, d);
    }
  }

  // Never further inside the circle than it started, or than half a step.
  ghost predicate Outside(start: int, c: int, p: Tracer) {
    p.err <= Major(p) - 1 || c - p.err >= start
  }

  lemma StaysOutside(start: int, c: int, strict: bool, p: Tracer)
    requires Traceable(c) && Startable(c, strict, p) && Outside(start, c, p)
    ensures Outside(start, c, LiveStep(strict, p))
  {
    MajorBound(c, strict, p);
    hide OnCircle;
  }

  lemma {:induction false} LiveRunOutside(c: int, strict: bool, p: Tracer, n: nat)
    requires Traceable(c) && Startable(c, strict, p)
    ensures Outside(c - p.err, c, LiveRun(strict, p, n))
  {
    if n > 0 {
      LiveRunTracks(c, strict, p, n - 1);
      LiveRunOutside(c, strict, p, n - 1);
      StaysOutside(c - p.err, c, strict, LiveRun(strict, p, n - 1));
    }
  }

  // Squares of the start, whose larger coordinate is m0, and of the target.
  ghost predicate StartWindow(r: nat, m0: nat, f: int, c: int) {
    r >= 8 && r * r <= Max(f, c) && m0 <= r && 2 - 2 * m0 <= c - f <= 2 * m0 + 1
  }

  // The larger coordinate is more than 0.6166 of the radius.
  lemma MajorNearRadius(r: nat, m0: nat, f: int, c: int, strict: bool, p: Tracer)
    requires Traceable(c) && StartWindow(r, m0, f, c)
    requires Startable(c, strict, p) && Outside(f, c, p)
    ensures 40404 * r < 65536 * Major(p)
  {
    MajorBound(c, strict, p);
    var m, minor := Major(p), if p.first then p.v else p.u;
    Squares(minor, m);
    assert m * m + minor * minor + p.err == c;
    LargeMajor(r, m);
  }

  lemma LargeMajor(r: nat, m: nat)
    requires r >= 8
    requires 2 * (m * m) + m >= r * r - 2 * r + 3 || 2 * (m * m) >= r * r - 2 * r - 1
    ensures 40404 * r < 65536 * m
  {
    if 40404 * r >= 65536 * m {
      if r <= 9 {
        Squares(m, 5);
      } else {
        MajorTooSmall(r, m);
        assert false;
      }
    }
  }

  lemma MajorTooSmall(r: nat, m: nat)
    requires r >= 10 && 1000 * m <= 617 * r
    ensures 2 * (m * m) < r * r - 2 * r - 1 && 2 * (m * m) + m < r * r - 2 * r + 3
  {
    var p, q := m * m, r * r;
    assert 380689 * q - 1000000 * p >= 0 by {
      assert (617 * r) * (617 * r) == 380689 * q;
      assert (1000 * m) * (1000 * m) == 1000000 * p;
      Products(617 * r, 1000 * m, 617 * r, 1000 * m);
    }
    assert q >= 11 * r - 10 by {
      assert (r - 10) * (r - 1) == q - 11 * r + 10;
      Products(r - 10, 0, r - 1, 0);
    }
  }

  // The compare register of the step timer has 16 bits, and the quotient that
  // is put into it fits.
  lemma TimerFits(feed: int, r: nat, m: nat)
    requires feed > 0 && 40404 * r < 65536 * m
    ensures 0 <= ArcBaseTicks(ClampedSpeed(feed)) * r / m < 0x1_0000
  {
    BaseTicksInRange(feed);
    var base := ArcBaseTicks(ClampedSpeed(feed));
    Products(40404, base, r, r);
    QuotientAtMost(base * r, m, 65535);
    Products(base, 0, r, 0);
    QuotientAtLeast(base * r, m, 0);
  }

  // That is so for every tick of an arc in reach; and what is put there is the
  // right quotient as long as the product fits 32 bits.
  lemma ArcTimerFits(feed: int, r: int, fromx: int, fromy: int, tox: int, toy: int, ccw: bool, n: nat)
    requires feed > 0
    requires fromx != 0 || fromy != 0
    requires ArcInReach(r, fromx, fromy, tox, toy, ccw)
    ensures var at := Place(!ccw, LiveRun(!ccw, StartFrame(fromx, fromy, tox, toy, ccw), n));
      var base, m := ArcBaseTicks(ClampedSpeed(feed)), Max(Abs(at.0), Abs(at.1));
      && 0 < m && 0 <= base * r / m < 0x1_0000
      && (base * r < U32 ==> ArcTicks(base, r, at.0, at.1) == base * r / m)
  {
    MajorOfTick(r, fromx, fromy, tox, toy, ccw, n);
    hide ArcInReach, StartFrame, LiveRun, Place, ArcBaseTicks, ClampedSpeed, ArcTicks, Max;
    TimerOfTick(feed, r, !ccw, LiveRun(!ccw, StartFrame(fromx, fromy, tox, toy, ccw), n));
  }

  lemma MajorOfTick(r: int, fromx: int, fromy: int, tox: int, toy: int, ccw: bool, n: nat)
    requires fromx != 0 || fromy != 0
    requires ArcInReach(r, fromx, fromy, tox, toy, ccw)
    ensures var q := LiveRun(!ccw, StartFrame(fromx, fromy, tox, toy, ccw), n);
      40404 * r < 65536 * Major(q) && Major(q) == Max(Abs(q.u), Abs(q.v))
  {
    ArcStarts(r, fromx, fromy, tox, toy, ccw);
    WindowOfArc(r, fromx, fromy, tox, toy, ccw);
    hide ArcInReach, StartFrame, Startable, Traceable, LiveRun, StartWindow;
    RunMajor(r, Max(Abs(fromx), Abs(fromy)), fromx * fromx + fromy * fromy, tox * tox + toy * toy, !ccw,
      StartFrame(fromx, fromy, tox, toy, ccw), n);
  }

  lemma RunMajor(r: nat, m0: nat, f: int, c: int, strict: bool, p: Tracer, n: nat)
    requires Traceable(c) && Startable(c, strict, p) && p.err == c - f && StartWindow(r, m0, f, c)
    ensures var q := LiveRun(strict, p, n);
      40404 * r < 65536 * Major(q) && Major(q) == Max(Abs(q.u), Abs(q.v))
  {
    var q := LiveRun(strict, p, n);
    LiveRunTracks(c, strict, p, n);
    LiveRunOutside(c, strict, p, n);
    hide Traceable, Outside, LiveRun, StartWindow;
    LargestIsMajor(c, strict, q);
    hide Startable;
    MajorNearRadius(r, m0, f, c, strict, q);
  }

  lemma WindowOfArc(r: int, fromx: int, fromy: int, tox: int, toy: int, ccw: bool)
    requires ArcInReach(r, fromx, fromy, tox, toy, ccw)
    ensures var f, c, m := fromx * fromx + fromy * fromy, tox * tox + toy * toy, Max(Abs(fromx), Abs(fromy));
      StartWindow(r, m, f, c)
  {
    SquareOfMax(fromx, fromy);
    MajorWithin(r, Max(Abs(fromx), Abs(fromy)), fromx * fromx + fromy * fromy);
    if r < 8 {
      Squares(r + 1, 8);
    }
  }

  lemma LargestIsMajor(c: int, strict: bool, q: Tracer)
    requires Startable(c, strict, q)
    ensures Major(q) == Max(Abs(q.u), Abs(q.v))
  {}

  lemma TimerOfTick(feed: int, r: nat, strict: bool, q: Tracer)
    requires feed > 0 && 40404 * r < 65536 * Major(q) && Major(q) == Max(Abs(q.u), Abs(q.v))
    ensures var base, at := ArcBaseTicks(ClampedSpeed(feed)), Place(strict, q);
      var m := Max(Abs(at.0), Abs(at.1));
      && 0 < m && 0 <= base * r / m < 0x1_0000
      && (base * r < U32 ==> ArcTicks(base, r, at.0, at.1) == base * r / m)
  {
    PlaceMax(strict, q);
    TimerFits(feed, r, Major(q));
    BaseTicksInRange(feed);
    hide Place, ArcBaseTicks, ClampedSpeed;
    var base := ArcBaseTicks(ClampedSpeed(feed));
    if base * r < U32 {
      Products(base, 0, r, 0);
      DivMod(base * r, U32, 0, base * r);
      KeptInTimer(base * r, Major(q), 0x1_0000);
    }
  }

  // The quotient is taken of a product of 32 bits.  It is the right one exactly
  // if that product fits.
  lemma TimerIsExact(base: nat, r: nat, x: int, y: int)
    requires 0 < Max(Abs(x), Abs(y)) <= U32
    requires base * r / Max(Abs(x), Abs(y)) < 0x1_0000
    ensures ArcTicks(base, r, x, y) == base * r / Max(Abs(x), Abs(y)) <==> base * r < U32
  {
    WrappedQuotient(base * r, Max(Abs(x), Abs(y)));
  }

  // At the slowest speed that is so for radii below 106330 steps.  A tick at
  // the first axis of an arc of that radius is given no time at all.
  lemma SlowArcs(r: nat, x: int, y: int)
    requires 0 < Max(Abs(x), Abs(y)) <= U32
    requires SLOWEST * r / Max(Abs(x), Abs(y)) < 0x1_0000
    ensures SLOWEST == ArcBaseTicks(ClampedSpeed(1))
    ensures ArcTicks(SLOWEST, r, x, y) == SLOWEST * r / Max(Abs(x), Abs(y)) <==> r < 106_330
    ensures ArcTicks(SLOWEST, 106_330, 106_330, 0) == 0 && SLOWEST * 106_330 / 106_330 == SLOWEST
  {
    TimerIsExact(SLOWEST, r, x, y);
    SlowestOnAxis();
    hide ArcTicks, ArcBaseTicks, ClampedSpeed, Max;
  }

  lemma SlowestOnAxis()
    ensures SLOWEST == ArcBaseTicks(ClampedSpeed(1))
    ensures ArcTicks(SLOWEST, 106_330, 106_330, 0) == 0 && SLOWEST * 106_330 / 106_330 == SLOWEST
  {}

  const SLOWEST := 40393

  lemma WrappedQuotient(p: nat, m: nat)
    requires 0 < m <= U32 && p / m < 0x1_0000
    ensures p % U32 / m % 0x1_0000 == p / m <==> p < U32
  {
    var low := p % U32;
    if p < U32 {
      assert low == p by { DivMod(p, U32, 0, p); }
      KeptInTimer(p, m, 0x1_0000);
    } else {
      WrapsBelow(p);
      LowerQuotient(low, p, m);
      KeptInTimer(low, m, p / m);
    }
  }

  lemma WrapsBelow(p: nat)
    requires p >= U32
    ensures p % U32 + U32 <= p
  {}

  lemma LowerQuotient(low: nat, p: nat, m: nat)
    requires 0 < m && low + m <= p
    ensures low / m < p / m
  {
    var q, e := p / m, p % m;
    assert p == q * m + e;
    QuotientAtLeast(p, m, 1);
    assert q * m == (q - 1) * m + m;
    QuotientAtMost(low, m, q - 1);
  }

  lemma KeptInTimer(low: nat, m: nat, q: nat)
    requires 0 < m && low / m < q <= 0x1_0000
    ensures low / m % 0x1_0000 == low / m
  {
    var t := low / m;
    QuotientAtLeast(low, m, 0);
    assert 0 <= t < 0x1_0000;
  }

  lemma ArcComparisonsFit(r: int, fromx: int, fromy: int, tox: int, toy: int, ccw: bool, n: nat)
    requires fromx != 0 || fromy != 0
    requires ArcInReach(r, fromx, fromy, tox, toy, ccw)
    requires 3 * (r + 1) < INT24
    ensures var q := LiveRun(!ccw, StartFrame(fromx, fromy, tox, toy, ccw), n);
      var at := Place(!ccw, q);
      && -INT24 < 2 * at.0 - at.1 < INT24 && -INT24 < 2 * at.0 + at.1 < INT24
      && -INT24 < 2 * at.1 - at.0 < INT24 && -INT24 < 2 * at.1 + at.0 < INT24
      && -INT24 < q.err < INT24
  {
    ArcStarts(r, fromx, fromy, tox, toy, ccw);
    ComparisonsFit(r, LargerSquare(fromx, fromy, tox, toy), tox * tox + toy * toy, !ccw, StartFrame(fromx, fromy, tox, toy, ccw), n);
  }
}
