// The planner: it turns targets into jobs and keeps its own idea of where the
// head will be.  Drift is by how much that idea is wrong.
module Planner {
  import opened Arithmetic
  import opened ArcAccuracy
  import opened ArcTracer
  import opened ArcCoverage
  import opened ArcOctants
  import opened ArcDryRun
  import opened ArcHits
  import opened Dda
  import opened Motion
  import opened Stepper
  import opened Machine
  import Lengths

  // The interrupts that occur before a planner call fills its job in, and while
  // it waits for a free slot.
  datatype Schedule = Schedule(before: seq<Axes>, waiting: seq<Axes>)

  // Enough of them for any job but a search for the switches.
  predicate Patient(s: Schedule) { |s.waiting| > WIDTH }

  // The travel of the machine in steps, with room to spare in 24 bits.
  const REACH := 0x40_0000

  predicate Reachable(v: Vec) {
    -REACH <= v.x < REACH && -REACH <= v.y < REACH && -REACH <= v.z < REACH
  }

  datatype LaserSettings = LaserSettings(pulses: int, ppm: int, pulseUs: int, power: int, mode: LaserMode, modulation: int)

  // Timer ticks for a step along the longer of X and Y.  A move along neither
  // has no such value (the quotient has a zero divisor).
  function StraightTicks(lengthUm: int, speed: int, steps: Vec): (t: int)
    ensures 0 <= t < 0x1_0000
  {
    var divisor := speed * Max(steps.x, steps.y);
    if divisor <= 0 then 0xffff else TimerQuotient(F_CPU * lengthUm, divisor)
  }

  // Rounded down, and the right one if it fits the timer.
  function TimerQuotient(n: int, divisor: int): (t: int)
    requires 0 < divisor
    ensures 0 <= t < 0x1_0000
    ensures 0 <= n < 0x1_0000 * divisor ==> t * divisor <= n < (t + 1) * divisor
  {
    TimerQuotientFits(n, divisor);
    n / divisor % 0x1_0000
  }

  lemma TimerQuotientFits(n: int, divisor: int)
    requires 0 < divisor
    ensures 0 <= n < 0x1_0000 * divisor ==>
      var t := n / divisor % 0x1_0000; t * divisor <= n < (t + 1) * divisor
  {
    var q, r := n / divisor, n % divisor;
    if 0 <= n < 0x1_0000 * divisor {
      QuotientAtMost(n, divisor, 0xffff);
      QuotientAtLeast(n, divisor, 0);
      assert n / divisor % 0x1_0000 == q;
      QuotientBounds(n, divisor, q, r);
    }
  }

  lemma QuotientBounds(n: int, d: int, q: int, r: int)
    requires n == d * q + r && 0 <= r < d
    ensures q * d <= n < (q + 1) * d
  {
    assert (q + 1) * d == d * q + d;
  }

  // t timer ticks are the duration of the way at that speed, divided among the
  // steps of the longer axis and rounded down, if that fits the timer.
  ghost predicate StepTakes(t: int, um: int, speed: int, from: Vec, to: Vec) {
    var longer := Max(Abs(to.x - from.x), Abs(to.y - from.y));
    0 < speed && 0 < longer && 16_000_000 * um < 0x1_0000 * (speed * longer) ==>
      t * (speed * longer) <= 16_000_000 * um < (t + 1) * (speed * longer)
  }

  // What a step of a planned line takes: the duration of the way at that speed,
  // divided among the steps of the longer axis and rounded down.
  lemma LineRate(job: int, from: Vec, to: Vec, um: int, speed: int, options: LaserOptions)
    requires 0 <= um
    ensures var b := StraightBlock(job, from, to, um, speed, options);
      b.Straight? && b.job == job && b.laser == options && StepTakes(b.ticks, um, speed, from, to)
    ensures var longer := Max(Abs(to.x - from.x), Abs(to.y - from.y));
      0 < speed && 0 < longer && 16_000_000 * um < 0x1_0000 * (speed * longer) ==>
        var t := StraightBlock(job, from, to, um, speed, options).ticks;
        t * (speed * longer) <= 16_000_000 * um < (t + 1) * (speed * longer)
  {
    var longer := Max(Abs(to.x - from.x), Abs(to.y - from.y));
    if 0 < speed && 0 < longer {
      Products(speed, 1, longer, 1);
    }
  }

  // What a step of a planned arc takes.
  lemma ArcRate(speed: int)
    requires 5000 <= speed <= 100_984
    ensures ArcTimer(speed) * (79_220 * speed) <= 16_000_000 * 1_000_000 < (ArcTimer(speed) + 1) * (79_220 * speed)
  {
    BaseTicksFit(speed);
    BaseTicksAreAStep(speed);
    hide ArcBaseTicks;
  }

  // Square of the way in micrometres.
  function SquaredWay(from: Vec, to: Vec): int {
    var dx := Lengths.StepsToPosition(from.x - to.x, Lengths.XY_STEPS_PER_M);
    var dy := Lengths.StepsToPosition(from.y - to.y, Lengths.XY_STEPS_PER_M);
    dx * dx + dy * dy
  }

  // It is that of the ways along X and Y, each to the nearest micrometre, or the
  // one above it when it is negative.
  lemma WayInMicrometres(from: Vec, to: Vec) returns (dx: int, dy: int)
    ensures SquaredWay(from, to) == dx * dx + dy * dy
    ensures NearlyMicrometres(dx, from.x - to.x) && NearlyMicrometres(dy, from.y - to.y)
  {
    dx := Lengths.StepsToPosition(from.x - to.x, Lengths.XY_STEPS_PER_M);
    dy := Lengths.StepsToPosition(from.y - to.y, Lengths.XY_STEPS_PER_M);
    Lengths.NearestMicrometre(from.x - to.x, Lengths.XY_STEPS_PER_M);
    Lengths.NearestMicrometre(from.y - to.y, Lengths.XY_STEPS_PER_M);
    hide Lengths.StepsToPosition;
  }

  ghost predicate NearlyMicrometres(um: int, steps: int) {
    var off := 2 * (um * 79_220 - steps * 1_000_000);
    if steps >= 0 then -79_220 < off <= 79_220 else -79_220 <= off < 3 * 79_220
  }

  // The job of a straight way of the given length.
  function StraightBlock(job: int, from: Vec, to: Vec, um: int, speed: int, options: LaserOptions): Block {
    Straight(job, Distance(from, to), Back(from, to), StraightTicks(um, speed, Distance(from, to)), options)
  }

  // A call comes back with its job queued if there is room, or if it waits long
  // enough and no search for the switches is on.
  ghost predicate Queued(done: bool, searching: bool, full: bool, irqs: Schedule) {
    !full || (!searching && Patient(irqs)) ==> done
  }

  // A job that moves the head by v, wherever it is.
  ghost predicate MovesBy(b: Block, v: Vec)
    requires ValidBlock(b)
  {
    forall pos :: Effect(b, pos) == Plus(pos, v)
  }

  // The steps that a job of one tick loses.
  function LostStep(from: Vec, to: Vec): Vec {
    if Longest(Distance(from, to)) == 1 then Minus(to, from) else ORIGIN
  }

  class PlannerState {
    const machine: Machine
    const arc: ArcPlanner
    var position: Vec
    var target: Vec
    var centerX: int
    var centerY: int
    var laser: LaserSettings

    ghost predicate Valid()
      reads this, machine, machine.motor, machine.queue, machine.queue.data
    {
      machine.Valid() && InRange()
    }

    ghost predicate InRange()
      reads this
    {
      Reachable(position) && Reachable(target) && Reachable(Vec(centerX, centerY, 0))
    }

    // Where the planner believes the head will be, less where it will be.
    ghost function Drift(): Vec
      requires Valid()
      reads this, machine, machine.motor, machine.queue, machine.queue.data
    {
      Minus(position, machine.Final())
    }

    constructor ()
      ensures Valid() && Drift() == ORIGIN
    {
      machine := new Machine();
      arc := new ArcPlanner();
      position, target := ORIGIN, ORIGIN;
      centerX, centerY := 0, 0;
      laser := LaserSettings(0, 0, 0, 0, LASER_MODE_OFF, 0);
    }

    // Length of the way to the target in micrometres.
    method LengthUm() returns (um: int)
      requires Valid()
      ensures Lengths.IsRoot(um, SquaredWay(position, target))
    {
      um := Lengths.Length2(
        Lengths.StepsToPosition(position.x - target.x, Lengths.XY_STEPS_PER_M),
        Lengths.StepsToPosition(position.y - target.y, Lengths.XY_STEPS_PER_M));
    }

    // Build a job in the free slot, whether or not it may be pushed yet, and
    // push it.
    method Enqueue(b: Block, irqs: Schedule) returns (done: bool)
      requires Valid() && ValidBlock(b)
      modifies machine.motor, machine.queue, machine.queue.data
      ensures Valid()
      ensures machine.Final() == if done then Effect(b, old(machine.Final())) else old(machine.Final())
      ensures done ==> machine.Newest(b)
      ensures Queued(done, old(machine.Searching()), old(machine.queue.IsFull()), irqs)
      ensures !old(machine.Searching()) && !IsSearch(b) ==> !machine.Searching()
    {
      machine.Interrupts(irqs.before);
      machine.queue.Fill(b);
      done := machine.Push(irqs.waiting, b);
    }

    // The job of a straight way to the target.
    method StraightJob(job: int, speed: int, laserOptions: LaserOptions) returns (b: Block, ghost um: int)
      requires Valid() && job in {MOVE_TO, LINE}
      ensures Lengths.IsRoot(um, SquaredWay(position, target))
      ensures ValidBlock(b) && b == StraightBlock(job, position, target, um, speed, laserOptions)
      ensures MovesBy(b, Minus(Minus(target, position), LostStep(position, target)))
    {
      var length := LengthUm();
      um := length;
      var steps := Distance(position, target);
      b := Straight(job, steps, Back(position, target), StraightTicks(length, speed, steps), laserOptions);
      forall pos ensures Effect(b, pos) == Plus(pos, Minus(Minus(target, position), LostStep(position, target))) {
        StraightMoves(pos, position, target);
      }
    }

    method QueueStraight(job: int, speed: int, laserOptions: LaserOptions, irqs: Schedule) returns (done: bool, ghost um: int)
      requires Valid() && job in {MOVE_TO, LINE}
      modifies machine.motor, machine.queue, machine.queue.data
      ensures Valid()
      ensures Lengths.IsRoot(um, SquaredWay(position, target))
      ensures done ==> machine.Newest(StraightBlock(job, position, target, um, speed, laserOptions))
      ensures Queued(done, old(machine.Searching()), old(machine.queue.IsFull()), irqs)
      ensures !old(machine.Searching()) ==> !machine.Searching()
      ensures done ==> Drift() == Minus(old(Drift()), Minus(Minus(target, position), LostStep(position, target)))
      ensures !done ==> Drift() == old(Drift())
    {
      var b;
      b, um := StraightJob(job, speed, laserOptions);
      assert !IsSearch(b);
      ghost var end, way := machine.Final(), Minus(Minus(target, position), LostStep(position, target));
      assert Effect(b, end) == Plus(end, way);
      hide Effect, LostStep, StraightBlock, ValidBlock, Lengths.IsRoot, SquaredWay, Queued, IsSearch, MovesBy;
      DriftOfWay(position, end, way);
      hide Plus, Minus;
      done := Enqueue(b, irqs);
    }

    // The planner's position follows.
    method TakePosition()
      requires Valid()
      modifies this`position
      ensures Valid() && position == target
      ensures Drift() == Plus(old(Drift()), Minus(target, old(position)))
    {
      position := target;
    }

    // G0 and G1 differ in the kernel and the laser only.
    method PlanStraight(job: int, speed: int, laserOptions: LaserOptions, irqs: Schedule) returns (done: bool, ghost um: int)
      requires Valid() && job in {MOVE_TO, LINE}
      modifies this`position, machine.motor, machine.queue, machine.queue.data
      ensures Valid()
      ensures Lengths.IsRoot(um, SquaredWay(old(position), target))
      ensures position == if done then target else old(position)
      ensures Drift() == if done then Plus(old(Drift()), LostStep(old(position), target)) else old(Drift())
      ensures done ==> machine.Newest(StraightBlock(job, old(position), target, um, speed, laserOptions))
      ensures Queued(done, old(machine.Searching()), old(machine.queue.IsFull()), irqs)
      ensures !old(machine.Searching()) ==> !machine.Searching()
    {
      hide LostStep, StraightBlock, Lengths.IsRoot, SquaredWay, Plus, Minus;
      ghost var from, drift := position, Drift();
      done, um := QueueStraight(job, speed, laserOptions, irqs);
      if done {
        TakePosition();
        DriftThere(drift, Minus(target, from), LostStep(from, target));
      }
    }

    // planner_move: the laser stays off.
    method Move(speed: int, irqs: Schedule) returns (done: bool, ghost um: int)
      requires Valid()
      modifies this`position, machine.motor, machine.queue, machine.queue.data
      ensures Valid()
      ensures Lengths.IsRoot(um, SquaredWay(old(position), target))
      ensures position == if done then target else old(position)
      ensures Drift() == if done then Plus(old(Drift()), LostStep(old(position), target)) else old(Drift())
      ensures done ==> machine.Newest(StraightBlock(MOVE_TO, old(position), target, um, speed + 1, LASER_OFF))
      ensures var b := StraightBlock(MOVE_TO, old(position), target, um, speed + 1, LASER_OFF);
        StepTakes(b.ticks, um, speed + 1, old(position), target)
      ensures Queued(done, old(machine.Searching()), old(machine.queue.IsFull()), irqs)
      ensures !old(machine.Searching()) ==> !machine.Searching()
    {
      hide StraightBlock, LostStep, SquaredWay, Lengths.IsRoot, Queued, StraightTicks, StepTakes, Minus, Plus;
      ghost var from := position;
      done, um := PlanStraight(MOVE_TO, speed + 1, LASER_OFF, irqs);
      RootIsPositive(um, from, target);
      LineRate(MOVE_TO, from, target, um, speed + 1, LASER_OFF);
    }

    // planner_line: as many pulses as asked for, or as the length calls for.
    method Line(speed: int, irqs: Schedule) returns (done: bool, ghost um: int)
      requires Valid()
      modifies this`position, machine.motor, machine.queue, machine.queue.data
      ensures Valid()
      ensures Lengths.IsRoot(um, SquaredWay(old(position), target))
      ensures position == if done then target else old(position)
      ensures Drift() == if done then Plus(old(Drift()), LostStep(old(position), target)) else old(Drift())
      ensures var options := LaserOptions(LinePulses(um) % WIDTH, laser.pulseUs, laser.power, laser.mode, laser.modulation);
        var b := StraightBlock(LINE, old(position), target, um, speed, options);
        (done ==> machine.Newest(b)) && StepTakes(b.ticks, um, speed, old(position), target)
      ensures Queued(done, old(machine.Searching()), old(machine.queue.IsFull()), irqs)
      ensures !old(machine.Searching()) ==> !machine.Searching()
    {
      hide StraightBlock, LostStep, SquaredWay, Lengths.IsRoot, Queued, StraightTicks, StepTakes, Minus, Plus, LinePulses;
      var length := LengthUm();
      var options := OptionsFor(LinePulses(length));
      ghost var from := position;
      done, um := PlanStraight(LINE, speed, options, irqs);
      Lengths.RootIsUnique(length, um, SquaredWay(from, target));
      RootIsPositive(um, from, target);
      LineRate(LINE, from, target, um, speed, options);
    }

    function LinePulses(um: int): (n: int)
      reads this`laser
      ensures laser.pulses != 0 ==> n == laser.pulses
      ensures laser.pulses == 0 && 0 <= um * laser.ppm < U32 ==> n * 1_000_000 <= um * laser.ppm < (n + 1) * 1_000_000
    {
      if laser.pulses != 0 then laser.pulses else Unsigned32(um * laser.ppm) / 1_000_000
    }

    function OptionsFor(pulses: int): LaserOptions
      reads this`laser
    {
      LaserOptions(pulses % WIDTH, laser.pulseUs, laser.power, laser.mode, laser.modulation)
    }

    // The radius that the arc is given: the larger one of start and target.
    method ArcRadius() returns (r: int)
      requires InRange()
      ensures 0 <= r && 6 * r < U32
      ensures r == 0 ==> position.x == target.x == centerX && position.y == target.y == centerY
      ensures Lengths.IsRoot(r, FurtherOut(position, target, centerX, centerY))
    {
      var fx, fy := position.x - centerX, position.y - centerY;
      var tx, ty := target.x - centerX, target.y - centerY;
      var f := Lengths.Length2(fx, fy);
      var t := Lengths.Length2(tx, ty);
      r := Max(f, t);
      LargerRoot(f, t, fx * fx + fy * fy, tx * tx + ty * ty);
      RadiusFits(f, fx, fy);
      RadiusFits(t, tx, ty);
    }

    // buffer_arc: the job of an arc about the origin.
    method BufferArc(r: int, fx: int, fy: int, tx: int, ty: int, speed: int, ccw: bool) returns (b: Block)
      requires 0 <= r && 6 * r < U32 && 0 < speed
      requires r == 0 ==> fx == fy == tx == ty == 0
      modifies arc
      ensures ValidBlock(b) && ArcFor(b, r, fx, fy, tx, ty, speed, ccw)
      ensures ArcInReach(r, fx, fy, tx, ty, ccw) ==> MovesBy(b, Vec(tx - fx, ty - fy, 0))
      ensures ArcInReach(r, fx, fy, tx, ty, ccw) && WithinOctant(fx, fy, tx, ty, ccw) ==>
        b.stepcount == Forward(b.octant, tx, ty) - Forward(b.octant, fx, fy)
    {
      var stepcount, octant, err, code;
      ghost var p;
      stepcount, octant, err, code, p := arc.BufferArc(r, fx, fy, tx, ty, ccw);
      b := Arc(octant, stepcount, fx, fy, err, r, ArcTimer(speed), OptionsFor(ArcPulses(stepcount)));
      if ArcInReach(r, fx, fy, tx, ty, ccw) {
        ArcMoves(b, r, tx, ty, ccw, code, p);
      }
    }

    // The job of an arc about the origin: all but its count of steps.
    ghost predicate ArcFor(b: Block, r: int, fx: int, fy: int, tx: int, ty: int, speed: int, ccw: bool)
      reads this`laser
    {
      && 0 < speed && b.Arc? && b.octant == GetOctant(fx, fy, ccw) && b.err == StartError(fx, fy, tx, ty)
      && b.x == fx && b.y == fy && b.radius == r && b.ticks == ArcTimer(speed)
      && b.laser == OptionsFor(ArcPulses(b.stepcount))
    }

    ghost predicate ArcFrom(b: Block, r: int, from: Vec, speed: int, ccw: bool)
      reads this`laser, this`target, this`centerX, this`centerY
    {
      ArcFor(b, r, from.x - centerX, from.y - centerY, target.x - centerX, target.y - centerY, speed, ccw)
    }

    lemma ArcForMeans(b: Block, r: int, from: Vec, speed: int, ccw: bool)
      requires ArcFrom(b, r, from, speed, ccw)
      ensures b.Arc? && b.laser == LaserOptions(ArcPulses(b.stepcount) % WIDTH, laser.pulseUs, laser.power, laser.mode, laser.modulation)
      ensures 5000 <= speed <= 100_984 ==>
        b.ticks * (79_220 * speed) <= 16_000_000 * 1_000_000 < (b.ticks + 1) * (79_220 * speed)
    {
      hide GetOctant, StartError, ArcTimer, ArcPulses;
      if 5000 <= speed <= 100_984 {
        ArcRate(speed);
      }
    }

    // The job of the arc to the target.
    method ArcToTarget(r: int, speed: int, ccw: bool) returns (b: Block)
      requires InRange() && 0 < speed && 0 <= r && 6 * r < U32
      requires r == 0 ==> position.x == target.x == centerX && position.y == target.y == centerY
      modifies arc
      ensures ValidBlock(b) && b.Arc? && ArcFrom(b, r, position, speed, ccw)
      ensures ArcAbout(r, position, target, centerX, centerY, ccw) ==>
        MovesBy(b, Vec(target.x - position.x, target.y - position.y, 0))
    {
      var fx, fy := position.x - centerX, position.y - centerY;
      var tx, ty := target.x - centerX, target.y - centerY;
      hide MovesBy, ArcInReach, ValidBlock, ArcFor;
      b := BufferArc(r, fx, fy, tx, ty, speed, ccw);
    }

    // planner_arc: the position is taken to the target's X and Y before the
    // job is queued.
    method ArcJob(speed: int, ccw: bool) returns (b: Block, ghost r: int)
      requires InRange() && 0 < speed
      modifies arc, this`position
      ensures ValidBlock(b) && b.Arc? && ArcFrom(b, r, old(position), speed, ccw)
      ensures position == target.(z := old(position.z))
      ensures Lengths.IsRoot(r, FurtherOut(old(position), target, centerX, centerY))
      ensures ArcAbout(r, old(position), target, centerX, centerY, ccw) ==>
        MovesBy(b, Minus(position, old(position)))
    {
      hide MovesBy, ArcAbout, Lengths.IsRoot, FurtherOut, ValidBlock, ArcFrom;
      var radius := ArcRadius();
      r := radius;
      b := ArcToTarget(radius, speed, ccw);
      position := Vec(centerX + (target.x - centerX), centerY + (target.y - centerY), position.z);
    }

    method QueueArc(speed: int, ccw: bool, irqs: Schedule) returns (done: bool, ghost r: int, ghost b: Block)
      requires Valid() && 0 < speed
      modifies arc, this`position, machine.motor, machine.queue, machine.queue.data
      ensures Valid()
      ensures Lengths.IsRoot(r, FurtherOut(old(position), target, centerX, centerY))
      ensures position == target.(z := old(position.z))
      ensures done && ArcAbout(r, old(position), target, centerX, centerY, ccw) ==> Drift() == old(Drift())
      ensures done ==> machine.Newest(b) && ArcFrom(b, r, old(position), speed, ccw)
      ensures b.Arc? && b.laser == LaserOptions(ArcPulses(b.stepcount) % WIDTH, laser.pulseUs, laser.power, laser.mode, laser.modulation)
      ensures 5000 <= speed <= 100_984 ==>
        b.ticks * (79_220 * speed) <= 16_000_000 * 1_000_000 < (b.ticks + 1) * (79_220 * speed)
      ensures Queued(done, old(machine.Searching()), old(machine.queue.IsFull()), irqs)
      ensures !old(machine.Searching()) ==> !machine.Searching()
    {
      hide ArcFrom, ValidBlock, Effect, Lengths.IsRoot, FurtherOut, ArcAbout, Queued, MovesBy, Plus, Minus;
      ghost var from, end := position, machine.Final();
      var job;
      job, r := ArcJob(speed, ccw);
      b := job;
      ArcForMeans(b, r, from, speed, ccw);
      if ArcAbout(r, from, target, centerX, centerY, ccw) {
        EndOfWay(b, end, from, position);
      }
      done := Enqueue(job, irqs);
    }

    // An arc; a way in Z that is asked for with it follows as a move.
    method PlanArc(speed: int, ccw: bool, irqs: Schedule, irqsOfMove: Schedule) returns (done: bool, ghost r: int)
      requires Valid() && 0 < speed
      modifies arc, this`position, machine.motor, machine.queue, machine.queue.data
      ensures Valid()
      ensures Lengths.IsRoot(r, FurtherOut(old(position), target, centerX, centerY))
      ensures done ==> position == target
      ensures done && ArcAbout(r, old(position), target, centerX, centerY, ccw) ==>
        Drift() == Plus(old(Drift()), LostStep(target.(z := old(position.z)), target))
      ensures !old(machine.Searching()) ==> (Patient(irqs) && Patient(irqsOfMove) ==> done) && !machine.Searching()
      ensures done && target.z == old(position.z) ==>
        machine.queue.Contents() != [] && ArcFrom(machine.NewestJob(), r, old(position), speed, ccw)
    {
      hide ArcFrom, StraightBlock, StepTakes, FurtherOut, Lengths.IsRoot, ArcAbout, SquaredWay;
      ghost var b, um;
      done, r, b := QueueArc(speed, ccw, irqs);
      if done && target.z != position.z {
        done, um := Move(speed, irqsOfMove);
      }
    }

    function ArcPulses(stepcount: int): (n: int)
      reads this`laser
      ensures laser.pulses != 0 ==> n == laser.pulses
      ensures laser.pulses == 0 && 0 <= stepcount * laser.ppm ==> n * 71_323 <= stepcount * laser.ppm < (n + 1) * 71_323
    {
      if laser.pulses != 0 then laser.pulses else Lengths.TruncDiv(stepcount * laser.ppm, PULSE_STEPS_PER_M)
    }

    // planner_home_axes: with axes to home a search for the switches, without
    // one merely a new position.
    method PlanReference(axes: Axes, irqs: Schedule) returns (done: bool)
      requires Valid()
      modifies this`position, machine.motor, machine.queue, machine.queue.data
      ensures Valid()
      ensures done ==> position == target && Drift() == DriftAfterReference(old(Drift()), old(position), target, axes)
      ensures done ==> machine.Newest(Reference(Any(axes), target, if Any(axes) then axes else Axes(true, true, true), 8000))
      ensures Queued(done, old(machine.Searching()), old(machine.queue.IsFull()), irqs)
      ensures !old(machine.Searching()) && !Any(axes) ==> !machine.Searching()
      ensures !done ==> position == old(position) && Drift() == old(Drift())
    {
      ReferenceDrift(position, target, axes, machine.Final());
      assert ReferenceJob(target, axes) == Reference(Any(axes), target, if Any(axes) then axes else Axes(true, true, true), 8000);
      hide Effect, ReferenceJob, DriftAfterReference;
      done := Enqueue(ReferenceJob(target, axes), irqs);
      if done {
        position := target;
      }
    }

    // Wait until all jobs are done.  Then the planner is right about where the
    // head is exactly if nothing has drifted, and otherwise wrong by that much.
    method Drain(readings: seq<Axes>) returns (done: bool)
      requires Valid()
      modifies machine.motor, machine.queue`tail
      ensures Valid() && Drift() == old(Drift())
      ensures done ==> machine.queue.Contents() == [] && machine.motor.job == IDLE
      ensures done ==> machine.motor.position == Minus(position, Drift())
      ensures !old(machine.Searching()) && |readings| >= old(machine.Work()) ==> done
    {
      hide Fold, Effect;
      done := machine.Drain(readings);
    }
  }

  // A job that takes the planned way adds no drift.
  lemma EndOfWay(b: Block, end: Vec, from: Vec, to: Vec)
    requires ValidBlock(b) && MovesBy(b, Minus(to, from))
    ensures Minus(to, Effect(b, end)) == Minus(from, end)
  {}

  lemma DriftOfWay(position: Vec, end: Vec, way: Vec)
    ensures Minus(position, Plus(end, way)) == Minus(Minus(position, end), way)
  {}

  lemma RootIsPositive(um: int, from: Vec, to: Vec)
    requires Lengths.IsRoot(um, SquaredWay(from, to))
    ensures 0 <= um
  {}

  // What has drifted when the position is moved to the target, too.
  lemma DriftThere(drift: Vec, way: Vec, lost: Vec)
    ensures Plus(Minus(drift, Minus(way, lost)), way) == Plus(drift, lost)
  {}

  // Squares of the distances of start and target from the centre.
  function FurtherOut(from: Vec, to: Vec, cx: int, cy: int): int {
    Max((from.x - cx) * (from.x - cx) + (from.y - cy) * (from.y - cy), (to.x - cx) * (to.x - cx) + (to.y - cy) * (to.y - cy))
  }

  ghost predicate ArcAbout(r: int, from: Vec, to: Vec, cx: int, cy: int, ccw: bool) {
    ArcInReach(r, from.x - cx, from.y - cy, to.x - cx, to.y - cy, ccw)
  }

  // Steps to the metre, less a tenth: what the pulses of an arc are counted by.
  const PULSE_STEPS_PER_M := 71_323

  function ArcTimer(speed: int): (t: int)
    requires 0 < speed
    ensures 0 <= t < 0x1_0000
  {
    ArcBaseTicks(speed) % 0x1_0000
  }

  lemma ArcMoves(b: Block, r: int, tx: int, ty: int, ccw: bool, code: int, p: Tracer)
    requires ValidBlock(b) && b.Arc? && b.octant == GetOctant(b.x, b.y, ccw) && b.err == StartError(b.x, b.y, tx, ty)
    requires ArcInReach(r, b.x, b.y, tx, ty, ccw)
    requires b.octant != BAD_OCTANT ==> Stored(!ccw, p, b.octant, b.x, b.y, b.err) && p.quadrant < 4
    requires b.octant != BAD_OCTANT && 6 * r + 1 < WIDTH ==>
      FirstReport(!ccw, p, tx, ty, r, if code == NO_MORE_STEPS then b.stepcount - 1 else b.stepcount, code)
    ensures MovesBy(b, Vec(tx - b.x, ty - b.y, 0))
    ensures WithinOctant(b.x, b.y, tx, ty, ccw) ==> b.stepcount == Forward(b.octant, tx, ty) - Forward(b.octant, b.x, b.y)
  {
    hide ArcInReach, FirstReport, StartFrame, LiveRun, Place, GetOctant, Forward, WithinOctant, MovesBy, ValidBlock, Stored;
    StartsApart(r, b.x, b.y, tx, ty, ccw);
    StoredStart(p, b.x, b.y, tx, ty, ccw);
    var n := if code == NO_MORE_STEPS then b.stepcount - 1 else b.stepcount;
    FirstAtLeast(p, tx, ty, r, n, code, ccw);
    ExactMatch(r, b.x, b.y, tx, ty, ccw, n, code);
    WayOfArc(b, n, tx, ty, ccw);
    if WithinOctant(b.x, b.y, tx, ty, ccw) {
      TicksWithinOctant(r, b.x, b.y, tx, ty, ccw, n, code);
    }
  }

  lemma FirstAtLeast(p: Tracer, tx: int, ty: int, r: int, n: int, code: int, ccw: bool)
    requires FirstReport(!ccw, p, tx, ty, r, n, code)
    ensures n >= 1
  {}

  lemma StoredStart(p: Tracer, fromx: int, fromy: int, tox: int, toy: int, ccw: bool)
    requires fromx != 0 || fromy != 0
    requires Stored(!ccw, p, GetOctant(fromx, fromy, ccw), fromx, fromy, StartError(fromx, fromy, tox, toy)) && p.quadrant < 4
    ensures p == StartFrame(fromx, fromy, tox, toy, ccw)
  {
    StoredFrame(!ccw, p, GetOctant(fromx, fromy, ccw), fromx, fromy, StartError(fromx, fromy, tox, toy));
  }

  lemma WayOfArc(b: Block, n: nat, tx: int, ty: int, ccw: bool)
    requires ValidBlock(b) && b.Arc? && b.octant == GetOctant(b.x, b.y, ccw) && b.err == StartError(b.x, b.y, tx, ty)
    requires (b.x != 0 || b.y != 0) && b.stepcount == n >= 1
    requires Place(!ccw, LiveRun(!ccw, StartFrame(b.x, b.y, tx, ty, ccw), n)) == (tx, ty)
    ensures MovesBy(b, Vec(tx - b.x, ty - b.y, 0))
  {
    hide LiveRun, Place;
    assert IsArc(b.octant) && IsClockwise(b.octant) == !ccw;
    hide GetOctant, StartError;
    assert Countdown(b.stepcount) == n;
  }

  // An arc in reach does not start at its centre.
  lemma StartsApart(r: int, fromx: int, fromy: int, tox: int, toy: int, ccw: bool)
    requires ArcInReach(r, fromx, fromy, tox, toy, ccw)
    ensures fromx != 0 || fromy != 0
    ensures IsArc(GetOctant(fromx, fromy, ccw)) && 6 * r + 1 < WIDTH
  {}

  function ReferenceJob(target: Vec, axes: Axes): Block {
    if Any(axes) then Reference(true, target, axes, 8000) else Reference(false, target, Axes(true, true, true), 8000)
  }

  lemma ReferenceDrift(from: Vec, to: Vec, axes: Axes, end: Vec)
    ensures Minus(to, Effect(ReferenceJob(to, axes), end)) == DriftAfterReference(Minus(from, end), from, to, axes)
  {}

  // A referenced axis has no drift left.  One that is not, but whose position
  // is changed all the same, drifts by the change.
  function DriftAfterReference(drift: Vec, from: Vec, to: Vec, axes: Axes): Vec {
    if Any(axes) then
      Vec(if axes.x then 0 else drift.x + to.x - from.x,
          if axes.y then 0 else drift.y + to.y - from.y,
          if axes.z then 0 else drift.z + to.z - from.z)
    else ORIGIN
  }

  const LASER_OFF := LaserOptions(0, 0, 0, LASER_MODE_OFF, 0)

  lemma LargerRoot(a: int, b: int, x: int, y: int)
    requires Lengths.IsRoot(a, x) && Lengths.IsRoot(b, y)
    ensures Lengths.IsRoot(Max(a, b), Max(x, y))
  {
    if a < b {
      Squares(a + 1, b);
    } else if b < a {
      Squares(b + 1, a);
    }
  }

  lemma RadiusFits(r: int, x: int, y: int)
    requires Lengths.IsRoot(r, x * x + y * y)
    requires -2 * REACH < x < 2 * REACH && -2 * REACH < y < 2 * REACH
    ensures r < 4 * REACH
    ensures r == 0 ==> x == 0 && y == 0
  {
    Squares(Abs(x), 2 * REACH);
    Squares(Abs(y), 2 * REACH);
    if r >= 4 * REACH {
      Squares(4 * REACH, r);
    }
    if r == 0 {
      if x != 0 { Squares(1, Abs(x)); }
      if y != 0 { Squares(1, Abs(y)); }
    }
  }
}
