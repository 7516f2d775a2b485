// The sixteen octant codes of the firmware, and how they fold onto the two
// rules of a tracer: quarter turns for counter-clockwise arcs, and a mirror in
// y for clockwise ones.
module ArcOctants {
  import opened Arithmetic
  import opened ArcTracer

  const ARC_CCW := 16
  const ARC_CW := 24
  const BAD_OCTANT := 255

  predicate IsArc(octant: int) { ARC_CCW <= octant < ARC_CW + 8 }
  predicate IsClockwise(octant: int) { octant >= ARC_CW }

  // A point seen from a frame turned by q quarters, and back.
  function TurnTo(q: nat, x: int, y: int): (int, int) {
    match q % 4
    case 0 => (x, y)
    case 1 => (y, -x)
    case 2 => (-x, -y)
    case _ => (-y, x)
  }

  function TurnBack(q: nat, u: int, v: int): (int, int) {
    match q % 4
    case 0 => (u, v)
    case 1 => (-v, u)
    case 2 => (-u, -v)
    case _ => (v, -u)
  }

  function FrameOf(octant: int, x: int, y: int, err: int): Tracer
    requires IsArc(octant)
  {
    var k := if IsClockwise(octant) then ARC_CW + 7 - octant else octant - ARC_CCW;
    var p := TurnTo(k / 2, x, if IsClockwise(octant) then -y else y);
    Tracer(k / 2, k % 2 == 0, p.0, p.1, err)
  }

  function OctantOf(clockwise: bool, p: Tracer): int {
    var k := 2 * (p.quadrant % 4) + if p.first then 0 else 1;
    if clockwise then ARC_CW + 7 - k else ARC_CCW + k
  }

  function Place(clockwise: bool, p: Tracer): (int, int) {
    var b := TurnBack(p.quadrant, p.u, p.v);
    (b.0, if clockwise then -b.1 else b.1)
  }

  // octant, x, y and err as the firmware stores them, for the tracer p.
  ghost predicate Stored(clockwise: bool, p: Tracer, octant: int, x: int, y: int, err: int) {
    octant == OctantOf(clockwise, p) && (x, y) == Place(clockwise, p) && err == p.err
  }

  lemma FrameRoundTrip(octant: int, x: int, y: int, err: int)
    requires IsArc(octant)
    ensures Stored(IsClockwise(octant), FrameOf(octant, x, y, err), octant, x, y, err)
    ensures FrameOf(octant, x, y, err).quadrant < 4
  {}

  // Frames a whole lap apart are stored alike.
  lemma StoredFrame(clockwise: bool, p: Tracer, octant: int, x: int, y: int, err: int)
    requires Stored(clockwise, p, octant, x, y, err)
    ensures IsArc(octant) && IsClockwise(octant) == clockwise
    ensures FrameOf(octant, x, y, err) == p.(quadrant := p.quadrant % 4)
    ensures x * x + y * y == p.u * p.u + p.v * p.v
  {}

  lemma PlaceSquare(clockwise: bool, p: Tracer, x: int, y: int)
    requires (x, y) == Place(clockwise, p)
    ensures x * x + y * y == p.u * p.u + p.v * p.v
  {}

  function Sgn(a: int): int { if a < 0 then -1 else if a > 0 then 1 else 0 }

  // Which octant a direction of travel starts in.  The origin has none.
  function GetOctant(x: int, y: int, ccw: bool): (o: int)
    ensures o == BAD_OCTANT <==> x == 0 && y == 0
    ensures o != BAD_OCTANT ==> IsArc(o) && IsClockwise(o) == !ccw
  {
    var base := if ccw then ARC_CCW else ARC_CW;
    if x > 0 && y >= 0 then
      base + if x > y then 0 else 1
    else if y > 0 && x <= 0 then
      base + if y > -x then 2 else 3
    else if x < 0 && y <= 0 then
      base + if x < y then 4 else 5
    else if y < 0 && x >= 0 then
      base + if y < -x then 6 else 7
    else
      BAD_OCTANT
  }

  // The octant is the half quadrant that lies ahead of the point; a clockwise
  // start on an axis is given the octant that ends there.
  lemma GetOctantFrame(x: int, y: int, ccw: bool, err: int)
    requires x != 0 || y != 0
    ensures var p := FrameOf(GetOctant(x, y, ccw), x, y, err);
      && 0 <= p.u && 0 <= p.v
      && Major(p) == Max(Abs(x), Abs(y))
      && (p.first == !Crossed(!ccw, p.u, p.v))
      && (p.u == 0 ==> !ccw && !p.first)
      && p.u * p.u + p.v * p.v == x * x + y * y
  {}

  // ---- Steps as flags ----

  function Delta(neg: bool, pos: bool): int {
    if neg then -1 else if pos then 1 else 0
  }

  // By how much the square of a grows when it moves by a step.
  function Growth(a: int, neg: bool, pos: bool): int {
    if neg then 1 - 2 * a else if pos then 2 * a + 1 else 0
  }

  lemma GrowthOfSquare(a: int, neg: bool, pos: bool)
    ensures (a + Delta(neg, pos)) * (a + Delta(neg, pos)) == a * a + Growth(a, neg, pos)
  {}

  // ---- The sixteen cases ----

  // The step an octant takes: always along one axis, sometimes along the other.
  function Choice(octant: int, x: int, y: int, err: int): (int, int) {
    match octant
    case 16 => (if err <= 2 * y - x then -1 else 0, 1)
    case 17 => (-1, if err > y - 2 * x then 1 else 0)
    case 18 => (-1, if err <= -(2 * x + y) then -1 else 0)
    case 19 => (if err > -(2 * y + x) then -1 else 0, -1)
    case 20 => (if err <= x - 2 * y then 1 else 0, -1)
    case 21 => (1, if err > 2 * x - y then -1 else 0)
    case 22 => (1, if err <= 2 * x + y then 1 else 0)
    case 23 => (if err > x + 2 * y then 1 else 0, 1)
    case 24 => (if err > -2 * y + x then 1 else 0, -1)
    case 25 => (1, if err <= -y + 2 * x then -1 else 0)
    case 26 => (1, if err > 2 * x + y then 1 else 0)
    case 27 => (if err <= 2 * y + x then 1 else 0, 1)
    case 28 => (if err > -x + 2 * y then -1 else 0, 1)
    case 29 => (-1, if err <= -2 * x + y then 1 else 0)
    case 30 => (-1, if err > -(2 * x + y) then -1 else 0)
    case 31 => (if err <= -(x + 2 * y) then -1 else 0, -1)
    case _ => (0, 0)
  }

  // The octant to continue in when the point given has been tested.
  function Relabel(octant: int, x: int, y: int): int {
    match octant
    case 16 => if y >= x then 17 else 16
    case 17 => if x <= 0 then 18 else 17
    case 18 => if x <= -y then 19 else 18
    case 19 => if y <= 0 then 20 else 19
    case 20 => if x >= y then 21 else 20
    case 21 => if x >= 0 then 22 else 21
    case 22 => if x >= -y then 23 else 22
    case 23 => if y >= 0 then 16 else 23
    case 24 => if y <= 0 then 31 else 24
    case 25 => if y < x then 24 else 25
    case 26 => if x >= 0 then 25 else 26
    case 27 => if x > -y then 26 else 27
    case 28 => if y >= 0 then 27 else 28
    case 29 => if x < y then 28 else 29
    case 30 => if x <= 0 then 29 else 30
    case 31 => if x < -y then 30 else 31
    case _ => octant
  }

  // The choice of each octant is one of the two rules, seen from its frame.
  lemma ChoiceIsRule(octant: int, x: int, y: int, err: int)
    requires IsArc(octant)
    ensures var c := Choice(octant, x, y, err);
      Place(IsClockwise(octant), Advance(FrameOf(octant, x, y, err))) == (x + c.0, y + c.1)
  {
    if octant < 20 {
      ChoiceIsRule16(octant, x, y, err);
    } else if octant < 24 {
      ChoiceIsRule20(octant, x, y, err);
    } else if octant < 28 {
      ChoiceIsRule24(octant, x, y, err);
    } else {
      ChoiceIsRule28(octant, x, y, err);
    }
  }

  lemma ChoiceIsRule16(octant: int, x: int, y: int, err: int)
    requires 16 <= octant < 20
    ensures var c := Choice(octant, x, y, err);
      Place(IsClockwise(octant), Advance(FrameOf(octant, x, y, err))) == (x + c.0, y + c.1)
  {}

  lemma ChoiceIsRule20(octant: int, x: int, y: int, err: int)
    requires 20 <= octant < 24
    ensures var c := Choice(octant, x, y, err);
      Place(IsClockwise(octant), Advance(FrameOf(octant, x, y, err))) == (x + c.0, y + c.1)
  {}

  lemma ChoiceIsRule24(octant: int, x: int, y: int, err: int)
    requires 24 <= octant < 28
    ensures var c := Choice(octant, x, y, err);
      Place(IsClockwise(octant), Advance(FrameOf(octant, x, y, err))) == (x + c.0, y + c.1)
  {}

  lemma ChoiceIsRule28(octant: int, x: int, y: int, err: int)
    requires 28 <= octant < 32
    ensures var c := Choice(octant, x, y, err);
      Place(IsClockwise(octant), Advance(FrameOf(octant, x, y, err))) == (x + c.0, y + c.1)
  {}

  // The test of each octant is the end of its half quadrant.
  lemma RelabelIsNext(p: Tracer, clockwise: bool, octant: int, x: int, y: int)
    requires octant == OctantOf(clockwise, p) && (x, y) == Place(clockwise, p)
    ensures Relabel(octant, x, y) ==
      OctantOf(clockwise, if AtEnd(clockwise, p) then NextHalf(p) else p)
  {}

  // A new label moves the frame, not the point.
  lemma LabelKeepsPlace(clockwise: bool, p: Tracer)
    ensures Place(clockwise, NextHalf(p)) == Place(clockwise, p)
    ensures NextHalf(p).err == p.err
    ensures NextHalf(p).u * NextHalf(p).u + NextHalf(p).v * NextHalf(p).v == p.u * p.u + p.v * p.v
  {}

  // The laps a frame has made matter neither to its steps nor to its labels.
  lemma AdvanceLap(clockwise: bool, p: Tracer)
    ensures Place(clockwise, Advance(p.(quadrant := p.quadrant % 4))) == Place(clockwise, Advance(p))
  {}

  lemma AdvanceKeepsOctant(clockwise: bool, p: Tracer)
    ensures OctantOf(clockwise, Advance(p)) == OctantOf(clockwise, p)
  {}

  lemma LabelOfAdvance(clockwise: bool, p: Tracer)
    ensures OctantOf(clockwise, NextHalf(Advance(p))) == OctantOf(clockwise, NextHalf(p))
  {}
}
