// Jobs, and what each does to the position of the head.
module Motion {
  import opened Arithmetic
  import opened ArcTracer
  import opened ArcOctants
  import opened Dda

  datatype Vec = Vec(x: int, y: int, z: int)
  datatype Axes = Axes(x: bool, y: bool, z: bool)

  const NO_AXES := Axes(false, false, false)

  predicate Any(a: Axes) { a.x || a.y || a.z }

  const IDLE := 0
  const HOME := 1
  const HOME_REF := 2
  const MOVE_TO := 3
  const LINE := 4

  // The bits of a laser mode.
  datatype LaserMode = LaserMode(continuous: bool, pulsed: bool, modulated: bool)

  const LASER_MODE_OFF := LaserMode(false, false, false)

  datatype LaserOptions = LaserOptions(steps: int, pulseUs: int, power: int, mode: LaserMode, modulation: int)

  // block_t: one constructor per member of its union.
  datatype Block =
    | Straight(job: int, steps: Vec, back: Axes, ticks: int, laser: LaserOptions)
    | Arc(octant: int, stepcount: int, x: int, y: int, err: int, radius: int, ticks: int, laser: LaserOptions)
    | Reference(search: bool, pos: Vec, axes: Axes, ticks: int)

  predicate ValidBlock(b: Block) {
    0 <= b.ticks < 0x1_0000 &&
    match b
    case Straight(job, steps, back, ticks, laser) =>
      job in {MOVE_TO, LINE} && 0 <= steps.x < WIDTH && 0 <= steps.y < WIDTH && 0 <= steps.z < WIDTH
    case Arc(octant, stepcount, x, y, err, radius, ticks, laser) =>
      (IsArc(octant) || octant == BAD_OCTANT) && 0 <= stepcount < WIDTH
    case Reference(search, pos, axes, ticks) => true
  }

  function Longest(steps: Vec): int {
    Max(steps.x, Max(steps.y, steps.z))
  }

  function Direction(back: bool): int { if back then -1 else 1 }

  // A count register of 0 is only noticed after it has wrapped around.
  function Countdown(toGo: int): int {
    if toGo == 0 then WIDTH else toGo
  }

  // Where an axis ends that has n ticks to go.
  function AxisEnd(pos: int, on: bool, direction: int, ctr: int, steps: int, total: int, n: int): int {
    if on && n >= 0 then pos + direction * CarrySteps(ctr, steps, total, n) else pos
  }

  function ArcEnd(pos: Vec, octant: int, x: int, y: int, err: int, n: int): Vec
    requires IsArc(octant) && n >= 0
  {
    var at := Place(IsClockwise(octant), LiveRun(IsClockwise(octant), FrameOf(octant, x, y, err), n));
    Vec(pos.x + at.0 - x, pos.y + at.1 - y, pos.z)
  }

  function Referenced(pos: Vec, ref: Vec, axes: Axes): Vec {
    Vec(if axes.x then ref.x else pos.x, if axes.y then ref.y else pos.y, if axes.z then ref.z else pos.z)
  }

  function StraightEnd(pos: Vec, steps: Vec, back: Axes): Vec {
    var t := Longest(steps);
    var c := Register(-(t / 2));
    Vec(AxisEnd(pos.x, steps.x != 0, Direction(back.x), c, steps.x, t, t),
        AxisEnd(pos.y, steps.y != 0, Direction(back.y), c, steps.y, t, t),
        AxisEnd(pos.z, steps.z != 0, Direction(back.z), c, steps.z, t, t))
  }

  // The position after a job, given the position before it.
  function Effect(b: Block, pos: Vec): Vec
    requires ValidBlock(b)
  {
    match b
    case Straight(job, steps, back, ticks, laser) => StraightEnd(pos, steps, back)
    case Arc(octant, stepcount, x, y, err, radius, ticks, laser) =>
      if IsArc(octant) then ArcEnd(pos, octant, x, y, err, Countdown(stepcount)) else pos
    case Reference(search, ref, axes, ticks) => Referenced(pos, ref, axes)
  }

  // The ticks it takes; those of a search for the switches depend on them.
  function BlockTicks(b: Block): nat
    requires ValidBlock(b)
  {
    match b
    case Straight(job, steps, back, ticks, laser) => Max(1, Longest(steps))
    case Arc(octant, stepcount, x, y, err, radius, ticks, laser) => if IsArc(octant) then Countdown(stepcount) else 1
    case Reference(search, ref, axes, ticks) => 1
  }

  // And after a queue of them.
  function Fold(blocks: seq<Block>, pos: Vec): Vec
    requires forall b :: b in blocks ==> ValidBlock(b)
  {
    if blocks == [] then pos else Fold(blocks[1..], Effect(blocks[0], pos))
  }

  lemma {:induction false} FoldAppend(blocks: seq<Block>, b: Block, pos: Vec)
    requires forall b :: b in blocks ==> ValidBlock(b)
    requires ValidBlock(b)
    ensures Fold(blocks + [b], pos) == Effect(b, Fold(blocks, pos))
  {
    if blocks == [] {
      assert Fold([b][1..], Effect(b, pos)) == Effect(b, pos);
      assert blocks + [b] == [b];
    } else {
      assert (blocks + [b])[1..] == blocks[1..] + [b];
      FoldAppend(blocks[1..], b, Effect(blocks[0], pos));
    }
  }

  // An axis that moves by d steps, all of them unless the whole job is one tick.
  lemma AxisMoves(pos: int, target: int, total: int)
    requires total < WIDTH
    requires -total <= target - pos <= total
    ensures var d := target - pos;
      AxisEnd(pos, d != 0, Direction(d < 0), Register(-(total / 2)), Max(d, -d), total, total) ==
        if total == 1 then pos else target
  {
    var d := target - pos;
    if d != 0 {
      CarryExact(Max(d, -d), total);
    }
  }

  function Distance(from: Vec, to: Vec): Vec {
    Vec(Max(to.x - from.x, from.x - to.x), Max(to.y - from.y, from.y - to.y), Max(to.z - from.z, from.z - to.z))
  }

  function Back(from: Vec, to: Vec): Axes {
    Axes(from.x > to.x, from.y > to.y, from.z > to.z)
  }

  function Plus(a: Vec, b: Vec): Vec { Vec(a.x + b.x, a.y + b.y, a.z + b.z) }
  function Minus(a: Vec, b: Vec): Vec { Vec(a.x - b.x, a.y - b.y, a.z - b.z) }

  const ORIGIN := Vec(0, 0, 0)

  // A straight job takes the head by exactly the planned distance, unless that
  // is a single step: then the head does not move at all.
  lemma StraightMoves(pos: Vec, from: Vec, to: Vec)
    requires Longest(Distance(from, to)) < WIDTH
    ensures StraightEnd(pos, Distance(from, to), Back(from, to)) ==
      if Longest(Distance(from, to)) == 1 then pos else Plus(pos, Minus(to, from))
  {
    var t := Longest(Distance(from, to));
    AxisMoves(pos.x, pos.x + to.x - from.x, t);
    AxisMoves(pos.y, pos.y + to.y - from.y, t);
    AxisMoves(pos.z, pos.z + to.z - from.z, t);
  }
}
