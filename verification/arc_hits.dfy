// How the dry run ends: on the target or beside it, and after how many ticks.
module ArcHits {
  import opened Arithmetic
  import opened ArcTracer
  import opened ArcCoverage
  import opened ArcOctants
  import opened ArcDryRun

  // ---- Near hits ----

  // The starts from which the dry run is beside the interrupt just when that is
  // on the circle again: next to the diagonal, and far outside the circle.
  predicate NearStart(strict: bool, p: Tracer) {
    && p.first
    && (|| (p.v == p.u - 1 && p.err == 3 - 2 * p.u)
        || (strict && p.v in {p.u, p.u - 2} && p.err == 5 - 2 * p.u))
  }

  // And the tick at which that is so.
  function NearTick(p: Tracer): nat { if p.v == p.u - 2 then 3 else 2 }

  // And where the interrupt is then.
  function NearGoal(p: Tracer): Tracer
    requires p.v in {p.u, p.u - 1, p.u - 2}
  {
    var goal := p.(first := false, err := 0);
    if p.v == p.u - 1 then goal.(u := p.u - 2, v := p.u)
    else if p.v == p.u then goal.(u := p.u - 2, v := p.u + 1)
    else goal.(u := p.u - 3, v := p.u)
  }

  // The last tick before two tracers come apart with the interrupt on target.
  ghost predicate Parting(strict: bool, i: Tracer, d: Tracer) {
    && !i.first && d == i.(first := true) && 0 < i.u <= i.v <= i.u + (if strict then 2 else 1)
    && i.err == 1 - 2 * i.u
  }

  lemma BeforeApart(c: int, strict: bool, gap: Gap, i: Tracer, d: Tracer)
    requires Traceable(c) && Related(c, strict, gap, i, d)
    requires LiveStep(strict, i).err == 0 != DryStep(strict, d).err
    ensures gap.Lagging? && Parting(strict, i, d)
  {
    MajorBound(c, strict, i);
    hide OnCircle;
    if gap.Apart? {
      ApartStep(c, strict, i, d);
    }
  }

  lemma BeforeParting(c: int, strict: bool, gap: Gap, i: Tracer, d: Tracer)
    requires Traceable(c) && Related(c, strict, gap, i, d)
    requires Parting(strict, LiveStep(strict, i), DryStep(strict, d))
    ensures NearStart(strict, i) && i.v > i.u - 2
  {
    MajorBound(c, strict, i);
    hide OnCircle;
    if gap.Apart? {
      ApartStep(c, strict, i, d);
    }
  }

  // Such a point is a start, or one tick after one.
  lemma BeforeNear(c: int, strict: bool, p: Tracer)
    requires Traceable(c) && Startable(c, strict, p)
    requires NearStart(strict, LiveStep(strict, p))
    ensures NearStart(strict, p) && p.v == p.u - 2 && LiveStep(strict, p).v == LiveStep(strict, p).u
  {
    MajorBound(c, strict, p);
    hide OnCircle;
  }

  lemma ApartOnTarget(c: int, strict: bool, p: Tracer, n: nat)
    requires Traceable(c) && Startable(c, strict, p)
    requires n > 0 && LiveRun(strict, p, n).err == 0 != DryRun(strict, p, n).err
    ensures NearStart(strict, p) && n == NearTick(p)
  {
    var g := RunsStayRelated(c, strict, p, n - 1);
    BeforeApart(c, strict, g, LiveRun(strict, p, n - 1), DryRun(strict, p, n - 1));
    hide Parting;
    assert n > 1 by { assert LiveRun(strict, p, 0) == DryRun(strict, p, 0); }
    g := RunsStayRelated(c, strict, p, n - 2);
    BeforeParting(c, strict, g, LiveRun(strict, p, n - 2), DryRun(strict, p, n - 2));
    if n > 2 {
      var q := LiveRun(strict, p, n - 3);
      LiveRunTracks(c, strict, p, n - 3);
      BeforeNear(c, strict, q);
      if n > 3 {
        LiveRunTracks(c, strict, p, n - 4);
        BeforeNear(c, strict, LiveRun(strict, p, n - 4));
      }
    }
  }

  // What comes of such a start: no point of the circle before, and then one of
  // which the dry run is a step wide.
  lemma FromNearStart(c: int, strict: bool, p: Tracer)
    requires Traceable(c) && Startable(c, strict, p) && NearStart(strict, p)
    ensures LiveRun(strict, p, NearTick(p)) == NearGoal(p) && DryRun(strict, p, NearTick(p)).err != 0
    ensures forall k: nat | 1 <= k < NearTick(p) :: LiveRun(strict, p, k).err != 0
  {
    MajorBound(c, strict, p);
    hide OnCircle;
    assert LiveRun(strict, p, 0) == p == DryRun(strict, p, 0);
    if p.v == p.u - 2 {
      NearSteps(strict, p);
      assert LiveRun(strict, p, 1) == LiveStep(strict, p) && DryRun(strict, p, 1) == DryStep(strict, p);
      NearSteps(strict, LiveStep(strict, p));
      assert LiveRun(strict, p, 2) == LiveStep(strict, LiveStep(strict, p));
    } else {
      NearSteps(strict, p);
      assert LiveRun(strict, p, 1) == LiveStep(strict, p) && DryRun(strict, p, 1) == DryStep(strict, p);
    }
  }

  lemma NearSteps(strict: bool, p: Tracer)
    requires NearStart(strict, p) && p.u >= 4
    ensures var i, d := LiveStep(strict, p), DryStep(strict, p);
      && i.err < 0
      && if p.v == p.u - 2 then i == d == p.(u := p.u - 1, v := p.u - 1, err := i.err) && NearStart(strict, i)
         else LiveStep(strict, i) == NearGoal(p) && DryStep(strict, d).err != 0
  {}

  // A near hit happens exactly for these starts with the target there.
  lemma NearHits(strict: bool, p: Tracer, tox: int, toy: int, r: int, n: nat, code: int)
    requires Traceable(tox * tox + toy * toy)
    requires Startable(tox * tox + toy * toy, strict, p)
    requires FirstReport(strict, p, tox, toy, r, n, code) && NearTick(p) <= 6 * r
    ensures code == NEAR_HIT <==> NearStart(strict, p) && Place(strict, NearGoal(p)) == (tox, toy)
  {
    var c, k := tox * tox + toy * toy, NearTick(p);
    DryReports(strict, p, n, tox, toy);
    DryReports(strict, p, k, tox, toy);
    ErrorOnTarget(c, strict, p, n, tox, toy);
    ErrorOnTarget(c, strict, p, k, tox, toy);
    hide Place, Report, LiveRun, DryRun, Startable, Traceable, NearTick, NearGoal;
    if code == NEAR_HIT {
      ApartOnTarget(c, strict, p, n);
      FromNearStart(c, strict, p);
    }
    if NearStart(strict, p) && Place(strict, NearGoal(p)) == (tox, toy) {
      FromNearStart(c, strict, p);
      assert Report(strict, p, tox, toy, k) == NEAR_HIT;
      assert n == k;
    }
  }

  // On the target nothing is missing to the circle, but a point beside the
  // other tracer is not on the circle.
  lemma ErrorOnTarget(c: int, strict: bool, p: Tracer, n: nat, tox: int, toy: int)
    requires Traceable(c) && Startable(c, strict, p) && c == tox * tox + toy * toy
    ensures Place(strict, LiveRun(strict, p, n)) == (tox, toy) ==> LiveRun(strict, p, n).err == 0
    ensures Place(strict, DryRun(strict, p, n)) == (tox, toy) ==> DryRun(strict, p, n).err == 0
    ensures Place(strict, LiveRun(strict, p, n)) != Place(strict, DryRun(strict, p, n)) ==> DryRun(strict, p, n).err != 0
  {
    var i, d := LiveRun(strict, p, n), DryRun(strict, p, n);
    var gap := RunsStayRelated(c, strict, p, n);
    LiveRunTracks(c, strict, p, n);
    hide Place;
    if gap.Apart? {
      assert d.err != 0 && OnCircle(c, d);
    } else {
      JoinedPlaces(c, strict, gap, i, d);
      RelatedErrors(c, strict, gap, i, d);
    }
    if Place(strict, i) == (tox, toy) {
      AtTarget(c, strict, i, tox, toy);
    }
    if Place(strict, d) == (tox, toy) && gap.Apart? {
      AtTarget(c, strict, d, tox, toy);
    }
  }

  lemma RelatedErrors(c: int, strict: bool, gap: Gap, i: Tracer, d: Tracer)
    requires Related(c, strict, gap, i, d) && !gap.Apart?
    ensures i.err == d.err && OnCircle(c, i)
  {}

  // Of an arc in reach: the dry run, too, ends on the target, unless the start
  // is one of those and the target comes right after it.
  lemma HitOrNear(r: int, fromx: int, fromy: int, tox: int, toy: int, ccw: bool, n: nat, code: int)
    requires fromx != 0 || fromy != 0
    requires ArcInReach(r, fromx, fromy, tox, toy, ccw)
    requires FirstReport(!ccw, StartFrame(fromx, fromy, tox, toy, ccw), tox, toy, r, n, code)
    ensures var p := StartFrame(fromx, fromy, tox, toy, ccw);
      && (code == NEAR_HIT <==> NearStart(!ccw, p) && Place(!ccw, NearGoal(p)) == (tox, toy))
      && (code != NEAR_HIT ==> code == HIT && Place(!ccw, DryRun(!ccw, p, n)) == (tox, toy))
  {
    hide StartFrame, Place, LiveRun, DryRun, NearGoal, NearStart, Startable, Traceable, Report, ArcInReach, Quiet;
    var p := StartFrame(fromx, fromy, tox, toy, ccw);
    ArcStarts(r, fromx, fromy, tox, toy, ccw);
    ExactMatch(r, fromx, fromy, tox, toy, ccw, n, code);
    NearHits(!ccw, p, tox, toy, r, n, code);
    DryReports(!ccw, p, n, tox, toy);
  }

  // There are such arcs: from (8, 7) to (6, 8) the dry run ends on (6, 9).
  lemma NearHitExample()
    ensures var p := StartFrame(8, 7, 6, 8, true);
      && ArcInReach(10, 8, 7, 6, 8, true) && FirstReport(false, p, 6, 8, 10, 2, NEAR_HIT)
      && Place(false, DryRun(false, p, 2)) == (6, 9) && Place(false, LiveRun(false, p, 2)) == (6, 8)
  {
    var p := Tracer(0, true, 8, 7, -13);
    assert StartFrame(8, 7, 6, 8, true) == p;
    assert DryRun(false, p, 0) == p && LiveRun(false, p, 0) == p;
    assert DryRun(false, p, 1) == Tracer(0, true, 7, 8, -13) && LiveRun(false, p, 1) == Tracer(0, false, 7, 8, -13);
    assert DryRun(false, p, 2) == Tracer(0, false, 6, 9, -17) && LiveRun(false, p, 2) == Tracer(0, false, 6, 8, 0);
    assert Report(false, p, 6, 8, 1) == NO_HIT && Report(false, p, 6, 8, 2) == NEAR_HIT;
  }

  // "Within half a step" of the right radius: always exactly a hit.
  lemma TightStartHits(r: int, fromx: int, fromy: int, tox: int, toy: int, ccw: bool, n: nat, code: int)
    requires fromx != 0 || fromy != 0
    requires ArcInReach(r, fromx, fromy, tox, toy, ccw)
    requires var m := Max(Abs(fromx), Abs(fromy));
      -m <= tox * tox + toy * toy - fromx * fromx - fromy * fromy < m
    requires FirstReport(!ccw, StartFrame(fromx, fromy, tox, toy, ccw), tox, toy, r, n, code)
    ensures code == HIT
    ensures Place(!ccw, DryRun(!ccw, StartFrame(fromx, fromy, tox, toy, ccw), n)) == (tox, toy)
    ensures Place(!ccw, LiveRun(!ccw, StartFrame(fromx, fromy, tox, toy, ccw), n)) == (tox, toy)
  {
    HitOrNear(r, fromx, fromy, tox, toy, ccw, n, code);
    ExactMatch(r, fromx, fromy, tox, toy, ccw, n, code);
    TightIsNotNear(r, fromx, fromy, tox, toy, ccw);
  }

  lemma TightIsNotNear(r: int, fromx: int, fromy: int, tox: int, toy: int, ccw: bool)
    requires fromx != 0 || fromy != 0
    requires ArcInReach(r, fromx, fromy, tox, toy, ccw)
    requires var m := Max(Abs(fromx), Abs(fromy));
      -m <= tox * tox + toy * toy - fromx * fromx - fromy * fromy < m
    ensures !NearStart(!ccw, StartFrame(fromx, fromy, tox, toy, ccw))
  {
    var m := Max(Abs(fromx), Abs(fromy));
    ArcStarts(r, fromx, fromy, tox, toy, ccw);
    GetOctantFrame(fromx, fromy, ccw, tox * tox + toy * toy - fromx * fromx - fromy * fromy);
    LargeStart(r, m, fromx, fromy, tox, toy, ccw);
  }

  lemma LargeStart(r: int, m: int, fromx: int, fromy: int, tox: int, toy: int, ccw: bool)
    requires ArcInReach(r, fromx, fromy, tox, toy, ccw) && m == Max(Abs(fromx), Abs(fromy))
    ensures m >= 6
  {
    SquaresWithin(fromx, fromy);
    hide LapFits;
    if m <= 5 {
      Squares(m, 5);
    }
  }

  lemma SquaresWithin(x: int, y: int)
    ensures x * x + y * y <= 2 * (Max(Abs(x), Abs(y)) * Max(Abs(x), Abs(y)))
  {
    Squares(Min(Abs(x), Abs(y)), Max(Abs(x), Abs(y)));
  }

  // ---- Arcs within an octant ----

  // How far a point is along the axis on which every tick of the octant moves.
  function Forward(octant: int, x: int, y: int): int {
    if octant in {16, 23, 27, 28} then y
    else if octant in {19, 20, 24, 31} then -y
    else if octant in {21, 22, 25, 26} then x
    else -x
  }

  lemma ForwardIsAlong(octant: int, x: int, y: int, err: int)
    requires IsArc(octant)
    ensures Forward(octant, x, y) == Along(FrameOf(octant, x, y, err))
  {}

  // Every tick moves the head by one along that axis.
  lemma EveryTickGoesForward(octant: int, x: int, y: int, err: int)
    requires IsArc(octant)
    ensures var step := Choice(octant, x, y, err); Forward(octant, x + step.0, y + step.1) == Forward(octant, x, y) + 1
  {}

  // The next time a tracer is at t, if that lies ahead in the half it is in.
  function Ahead(t: Tracer): Tracer { if t.u == 0 then Turn(t) else t }

  lemma TicksTo(c: int, strict: bool, p: Tracer, t: Tracer, k: nat)
    requires Traceable(c) && Startable(c, strict, p)
    requires Half(t) == Half(p) && (t.u == 0 ==> !t.first) && k > 0
    requires LiveRun(strict, p, k) == Ahead(t)
    ensures k == Along(t) - Along(p)
  {
    if t.u == 0 {
      var q := LiveRun(strict, p, k - 1);
      LiveRunTracks(c, strict, p, k - 1);
      TurnsFrom(c, strict, q, t);
      StepsWithinOctant(strict, p, k - 1);
    } else {
      StepsWithinOctant(strict, p, k);
    }
  }

  lemma TurnsFrom(c: int, strict: bool, q: Tracer, t: Tracer)
    requires Startable(c, strict, q) && LiveStep(strict, q) == Turn(t) && t.u == 0 && !t.first
    ensures Half(q) == Half(t) && Along(q) == -1
  {}

  // Before that it is nowhere near.
  lemma NotThereYet(c: int, strict: bool, p: Tracer, t: Tracer, n: nat, k: nat)
    requires Traceable(c) && Startable(c, strict, p)
    requires Half(t) == Half(p) && (t.u == 0 ==> !t.first) && 0 < n < k
    requires LiveRun(strict, p, k) == Ahead(t)
    ensures Place(strict, LiveRun(strict, p, n)) != Place(strict, t)
  {
    hide Startable, OnCircle, LiveStep, Place, LiveRun, Traceable;
    var s := LiveRun(strict, p, n);
    StaysAbove(c, strict, p, n);
    HalvesAreInOrder(strict, p, n);
    RunsCompose(strict, p, n, k - n);
    HalvesAreInOrder(strict, s, k - n);
    TicksTo(c, strict, p, t, k);
    assert LiveRun(strict, s, k - n) == Ahead(t);
    if Half(s) == Half(p) {
      StepsWithinOctant(strict, p, n);
      if Place(strict, s) == Place(strict, t) {
        SamePlaceSameAlong(strict, s, t);
      }
    } else {
      assert t.u == 0;
      JustTurned(strict, s, t, k - n);
    }
  }

  lemma StaysAbove(c: int, strict: bool, p: Tracer, n: nat)
    requires Traceable(c) && Startable(c, strict, p)
    ensures 0 <= LiveRun(strict, p, n).v
  {
    LiveRunTracks(c, strict, p, n);
  }

  lemma JustTurned(strict: bool, s: Tracer, t: Tracer, m: nat)
    requires t.u == 0 && !t.first && 0 <= s.v && m > 0
    requires LiveRun(strict, s, m) == Turn(t)
    ensures Half(s) != Half(Turn(t))
  {
    if Half(s) == Half(Turn(t)) {
      StepsWithinOctant(strict, s, m);
    }
  }

  lemma SamePlaceSameAlong(strict: bool, s: Tracer, t: Tracer)
    requires Half(s) == Half(t) && Place(strict, s) == Place(strict, t)
    ensures Along(s) == Along(t)
  {}

  lemma {:induction false} RunsCompose(strict: bool, p: Tracer, n: nat, m: nat)
    ensures LiveRun(strict, p, n + m) == LiveRun(strict, LiveRun(strict, p, n), m)
  {
    if m > 0 {
      RunsCompose(strict, p, n, m - 1);
    }
  }

  // The arc ends in the octant it starts in, further along.
  predicate WithinOctant(fromx: int, fromy: int, tox: int, toy: int, ccw: bool) {
    var octant := GetOctant(fromx, fromy, ccw);
    octant != BAD_OCTANT && octant == GetOctant(tox, toy, ccw) && Forward(octant, fromx, fromy) < Forward(octant, tox, toy)
  }

  // Such an arc takes exactly as many ticks as there are steps on that axis.
  lemma TicksWithinOctant(r: int, fromx: int, fromy: int, tox: int, toy: int, ccw: bool, n: nat, code: int)
    requires ArcInReach(r, fromx, fromy, tox, toy, ccw)
    requires WithinOctant(fromx, fromy, tox, toy, ccw)
    requires FirstReport(!ccw, StartFrame(fromx, fromy, tox, toy, ccw), tox, toy, r, n, code)
    ensures var octant := GetOctant(fromx, fromy, ccw); n == Forward(octant, tox, toy) - Forward(octant, fromx, fromy)
  {
    var octant, top := GetOctant(fromx, fromy, ccw), LargerSquare(fromx, fromy, tox, toy);
    var p, t := StartFrame(fromx, fromy, tox, toy, ccw), FrameOf(octant, tox, toy, 0);
    ArcStarts(r, fromx, fromy, tox, toy, ccw);
    TargetAhead(octant, fromx, fromy, p.err, tox, toy, ccw);
    ExactMatch(r, fromx, fromy, tox, toy, ccw, n, code);
    hide ArcInReach, StartFrame, FrameOf, GetOctant, Forward, Place, Startable, FirstReport;
    FirstArrival(r, top, !ccw, p, t, tox, toy, n, code);
  }

  lemma FirstArrival(r: nat, top: nat, strict: bool, p: Tracer, t: Tracer, tox: int, toy: int, n: nat, code: int)
    requires LapFits(r, top)
    requires var c := tox * tox + toy * toy;
      Traceable(c) && Startable(c, strict, p) && c <= top && c - p.err <= top && Landmark(c, strict, Ahead(t))
    requires Half(t) == Half(p) && (t.u == 0 ==> !t.first) && p.u > 0 && Before(p, Ahead(t))
    requires Place(strict, Ahead(t)) == Place(strict, t) == (tox, toy) == Place(strict, LiveRun(strict, p, n))
    requires FirstReport(strict, p, tox, toy, r, n, code)
    ensures n == Along(t) - Along(p)
  {
    var c := tox * tox + toy * toy;
    var k := RunFromStart(r, top, c, strict, p, Ahead(t));
    TicksTo(c, strict, p, t, k);
    DryReports(strict, p, k, tox, toy);
    hide Startable, Landmark, Traceable, Before, Along;
    if n < k {
      NotThereYet(c, strict, p, t, n, k);
    }
    assert Report(strict, p, tox, toy, k) != NO_HIT;
  }

  lemma TargetAhead(octant: int, fromx: int, fromy: int, err: int, tox: int, toy: int, ccw: bool)
    requires octant == GetOctant(fromx, fromy, ccw) == GetOctant(tox, toy, ccw) != BAD_OCTANT
    requires Forward(octant, fromx, fromy) < Forward(octant, tox, toy)
    ensures var p, t := FrameOf(octant, fromx, fromy, err), FrameOf(octant, tox, toy, 0);
      && Half(t) == Half(p) && (t.u == 0 ==> !t.first) && p.u > 0
      && Landmark(tox * tox + toy * toy, !ccw, Ahead(t)) && Before(p, Ahead(t))
      && Along(t) - Along(p) == Forward(octant, tox, toy) - Forward(octant, fromx, fromy)
      && Place(!ccw, Ahead(t)) == Place(!ccw, t) == (tox, toy)
  {
    var p, t := FrameOf(octant, fromx, fromy, err), FrameOf(octant, tox, toy, 0);
    ForwardIsAlong(octant, fromx, fromy, err);
    ForwardIsAlong(octant, tox, toy, 0);
    GetOctantFrame(fromx, fromy, ccw, err);
    GetOctantFrame(tox, toy, ccw, 0);
    FrameRoundTrip(octant, tox, toy, 0);
    LabelKeepsPlace(!ccw, t);
    hide GetOctant, FrameOf, Forward, Place;
    assert Half(t) == Half(p);
  }
}
