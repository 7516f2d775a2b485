// The motion half of the timer interrupt: one tick of the current job.
module Stepper {
  import opened Arithmetic
  import opened ArcTracer
  import opened ArcCoverage
  import opened ArcOctants
  import opened Dda
  import opened Motion
  import Ramp

  // One axis of one tick.
  function AxisTick(pos: int, on: bool, direction: int, ctr: int, steps: int, total: int): (int, int) {
    if on then
      var s := AdvanceCarry(ctr, steps, total);
      (if s.1 then pos + direction else pos, s.0)
    else (pos, ctr)
  }

  // The tick takes the axis a step nearer to where it ends.
  lemma AxisTickKeepsEnd(pos: int, on: bool, direction: int, ctr: int, steps: int, total: int, n: int)
    requires n >= 1
    requires direction == 1 || direction == -1
    ensures var s := AxisTick(pos, on, direction, ctr, steps, total);
      AxisEnd(s.0, on, direction, s.1, steps, total, n - 1) == AxisEnd(pos, on, direction, ctr, steps, total, n)
  {}

  // The stepper's side of the machine state.
  class Motor {
    var job: int
    var direction: Vec
    var position: Vec
    var axes: Axes        // low bits of the axis mask
    var home: Axes        // their copy in the high bits
    var stepCtr: Vec
    var steps: Vec
    var stepsTotal: int
    var stepsToGo: int
    var arcX: int
    var arcY: int
    var arcDx: int
    var arcDy: int
    var arcErr: int
    var arcRadius: int
    var refpos: Vec
    var baseTicks: int
    var ocr1a: int        // the timer's compare register

    ghost predicate Valid()
      reads this
    {
      && (job in {IDLE, HOME, HOME_REF, MOVE_TO, LINE, BAD_OCTANT} || IsArc(job))
      && (job in {MOVE_TO, LINE} ==>
            && direction.x in {1, -1} && direction.y in {1, -1} && direction.z in {1, -1}
            && (Any(axes) ==> 0 < stepsToGo <= stepsTotal < WIDTH))
      && (IsArc(job) ==> arcDx == 2 * arcX && arcDy == 2 * arcY && 0 <= stepsToGo < WIDTH)
      && (job in {HOME, HOME_REF} ==> (axes.x ==> home.x) && (axes.y ==> home.y) && (axes.z ==> home.z))
      && (job == HOME ==> direction.x == -1 && direction.y == 1)
      && (job == HOME_REF && Any(axes) ==> direction.x == 1 && direction.y == -1)
      && 0 <= baseTicks < 0x1_0000
    }

    // Where the head will be when the current job is done.
    ghost function JobEnd(): Vec
      requires Valid()
      reads this
    {
      if job in {MOVE_TO, LINE} then
        Vec(AxisEnd(position.x, axes.x, direction.x, stepCtr.x, steps.x, stepsTotal, stepsToGo),
            AxisEnd(position.y, axes.y, direction.y, stepCtr.y, steps.y, stepsTotal, stepsToGo),
            AxisEnd(position.z, axes.z, direction.z, stepCtr.z, steps.z, stepsTotal, stepsToGo))
      else if IsArc(job) then
        ArcEnd(position, job, arcX, arcY, arcErr, Countdown(stepsToGo))
      else if job in {HOME, HOME_REF} then
        Referenced(position, refpos, home)
      else position
    }

    // Ticks until then, if no reference switch is waited for.
    ghost function TicksLeft(): (n: nat)
      ensures n <= WIDTH
      requires Valid()
      reads this
    {
      if job in {MOVE_TO, LINE} then if Any(axes) then stepsToGo else 1
      else if IsArc(job) then Countdown(stepsToGo)
      else if job == IDLE then 0 else 1
    }

    // Only the reference switches know how long this takes.
    ghost predicate Searching()
      reads this
    {
      job == HOME || (job == HOME_REF && Any(axes))
    }

    constructor ()
      ensures Valid() && job == IDLE && position == ORIGIN
    {
      job := IDLE;
      position, direction, stepCtr, steps, refpos := ORIGIN, ORIGIN, ORIGIN, ORIGIN, ORIGIN;
      axes, home := NO_AXES, NO_AXES;
      baseTicks := 65535;
    }

    // The axes of a straight job, X, Y and Z in turn.
    method StepAxes()
      requires Valid() && job in {MOVE_TO, LINE}
      modifies this`position, this`stepCtr
      ensures (position.x, stepCtr.x) == AxisTick(old(position.x), axes.x, direction.x, old(stepCtr.x), steps.x, stepsTotal)
      ensures (position.y, stepCtr.y) == AxisTick(old(position.y), axes.y, direction.y, old(stepCtr.y), steps.y, stepsTotal)
      ensures (position.z, stepCtr.z) == AxisTick(old(position.z), axes.z, direction.z, old(stepCtr.z), steps.z, stepsTotal)
    {
      if axes.x {
        var s := AdvanceCarry(stepCtr.x, steps.x, stepsTotal);
        stepCtr := stepCtr.(x := s.0);
        if s.1 { position := position.(x := position.x + direction.x); }
      }
      if axes.y {
        var s := AdvanceCarry(stepCtr.y, steps.y, stepsTotal);
        stepCtr := stepCtr.(y := s.0);
        if s.1 { position := position.(y := position.y + direction.y); }
      }
      if axes.z {
        var s := AdvanceCarry(stepCtr.z, steps.z, stepsTotal);
        stepCtr := stepCtr.(z := s.0);
        if s.1 { position := position.(z := position.z + direction.z); }
      }
    }

    lemma TickKeepsEnd()
      requires Valid() && job in {MOVE_TO, LINE} && Any(axes)
      ensures var x := AxisTick(position.x, axes.x, direction.x, stepCtr.x, steps.x, stepsTotal);
        var y := AxisTick(position.y, axes.y, direction.y, stepCtr.y, steps.y, stepsTotal);
        var z := AxisTick(position.z, axes.z, direction.z, stepCtr.z, steps.z, stepsTotal);
        JobEnd() == Vec(AxisEnd(x.0, axes.x, direction.x, x.1, steps.x, stepsTotal, stepsToGo - 1),
                        AxisEnd(y.0, axes.y, direction.y, y.1, steps.y, stepsTotal, stepsToGo - 1),
                        AxisEnd(z.0, axes.z, direction.z, z.1, steps.z, stepsTotal, stepsToGo - 1))
    {
      AxisTickKeepsEnd(position.x, axes.x, direction.x, stepCtr.x, steps.x, stepsTotal, stepsToGo);
      AxisTickKeepsEnd(position.y, axes.y, direction.y, stepCtr.y, steps.y, stepsTotal, stepsToGo);
      AxisTickKeepsEnd(position.z, axes.z, direction.z, stepCtr.z, steps.z, stepsTotal, stepsToGo);
    }

    method MoveKernel() returns (busy: bool)
      requires Valid() && job in {MOVE_TO, LINE}
      modifies this`position, this`stepCtr, this`stepsToGo, this`ocr1a
      ensures Any(axes) ==> ocr1a == Ramp.MoveTicks(baseTicks, stepsTotal, stepsTotal - old(stepsToGo))
      ensures busy ==> Valid() && JobEnd() == old(JobEnd()) && TicksLeft() == old(TicksLeft()) - 1 > 0
      ensures !busy ==> position == old(JobEnd()) && old(TicksLeft()) == 1
    {
      hide Ramp.MoveTicks;
      if Any(axes) { TickKeepsEnd(); }
      StepAxes();
      if !Any(axes) {
        return false;
      }
      ocr1a := Ramp.RampTicks(baseTicks, stepsToGo, stepsTotal);
      stepsToGo := stepsToGo - 1;
      busy := stepsToGo != 0;
    }

    method LineKernel() returns (busy: bool)
      requires Valid() && job in {MOVE_TO, LINE}
      modifies this`position, this`stepCtr, this`stepsToGo, this`ocr1a
      ensures ocr1a == baseTicks
      ensures busy ==> Valid() && JobEnd() == old(JobEnd()) && TicksLeft() == old(TicksLeft()) - 1 > 0
      ensures !busy ==> position == old(JobEnd()) && old(TicksLeft()) == 1
    {
      if Any(axes) { TickKeepsEnd(); }
      StepAxes();
      ocr1a := baseTicks;
      if !Any(axes) {
        return false;
      }
      stepsToGo := stepsToGo - 1;
      busy := stepsToGo != 0;
    }

    // Which way to go, for the four octants of a half plane and a direction of
    // travel; the octant is tested on the point that is gone to.
    method SelectCcwUpper() returns (xNeg: bool, xPos: bool, yNeg: bool, yPos: bool)
      requires arcDx == 2 * arcX && arcDy == 2 * arcY && 16 <= job < 20
      modifies this`job, this`arcX, this`arcY
      ensures !(xNeg && xPos) && !(yNeg && yPos)
      ensures (Delta(xNeg, xPos), Delta(yNeg, yPos)) == Choice(old(job), old(arcX), old(arcY), arcErr)
      ensures arcX == old(arcX) + Delta(xNeg, xPos) && arcY == old(arcY) + Delta(yNeg, yPos)
      ensures job == Relabel(old(job), arcX, arcY)
    {
      xNeg, xPos, yNeg, yPos := false, false, false, false;
      match job {
        case 16 =>
          if arcErr <= arcDy - arcX { xNeg := true; arcX := arcX - 1; }
          arcY := arcY + 1;
          yPos := true;
          if arcY >= arcX { job := 17; }
        case 17 =>
          if arcErr > arcY - arcDx { yPos := true; arcY := arcY + 1; }
          arcX := arcX - 1;
          xNeg := true;
          if arcX <= 0 { job := 18; }
        case 18 =>
          if arcErr <= -(arcDx + arcY) { yNeg := true; arcY := arcY - 1; }
          arcX := arcX - 1;
          xNeg := true;
          if arcX <= -arcY { job := 19; }
        case 19 =>
          if arcErr > -(arcDy + arcX) { xNeg := true; arcX := arcX - 1; }
          arcY := arcY - 1;
          yNeg := true;
          if arcY <= 0 { job := 20; }
      }
    }

    method SelectCcwLower() returns (xNeg: bool, xPos: bool, yNeg: bool, yPos: bool)
      requires arcDx == 2 * arcX && arcDy == 2 * arcY && 20 <= job < 24
      modifies this`job, this`arcX, this`arcY
      ensures !(xNeg && xPos) && !(yNeg && yPos)
      ensures (Delta(xNeg, xPos), Delta(yNeg, yPos)) == Choice(old(job), old(arcX), old(arcY), arcErr)
      ensures arcX == old(arcX) + Delta(xNeg, xPos) && arcY == old(arcY) + Delta(yNeg, yPos)
      ensures job == Relabel(old(job), arcX, arcY)
    {
      xNeg, xPos, yNeg, yPos := false, false, false, false;
      match job {
        case 20 =>
          if arcErr <= arcX - arcDy { xPos := true; arcX := arcX + 1; }
          arcY := arcY - 1;
          yNeg := true;
          if arcX >= arcY { job := 21; }
        case 21 =>
          if arcErr > arcDx - arcY { yNeg := true; arcY := arcY - 1; }
          arcX := arcX + 1;
          xPos := true;
          if arcX >= 0 { job := 22; }
        case 22 =>
          if arcErr <= arcDx + arcY { yPos := true; arcY := arcY + 1; }
          arcX := arcX + 1;
          xPos := true;
          if arcX >= -arcY { job := 23; }
        case 23 =>
          if arcErr > arcX + arcDy { xPos := true; arcX := arcX + 1; }
          arcY := arcY + 1;
          yPos := true;
          if arcY >= 0 { job := 16; }
      }
    }

    method SelectCwUpper() returns (xNeg: bool, xPos: bool, yNeg: bool, yPos: bool)
      requires arcDx == 2 * arcX && arcDy == 2 * arcY && 24 <= job < 28
      modifies this`job, this`arcX, this`arcY
      ensures !(xNeg && xPos) && !(yNeg && yPos)
      ensures (Delta(xNeg, xPos), Delta(yNeg, yPos)) == Choice(old(job), old(arcX), old(arcY), arcErr)
      ensures arcX == old(arcX) + Delta(xNeg, xPos) && arcY == old(arcY) + Delta(yNeg, yPos)
      ensures job == Relabel(old(job), arcX, arcY)
    {
      xNeg, xPos, yNeg, yPos := false, false, false, false;
      match job {
        case 24 =>
          if arcErr > -arcDy + arcX { xPos := true; arcX := arcX + 1; }
          arcY := arcY - 1;
          yNeg := true;
          if arcY <= 0 { job := 31; }
        case 25 =>
          if arcErr <= -arcY + arcDx { yNeg := true; arcY := arcY - 1; }
          arcX := arcX + 1;
          xPos := true;
          if arcY < arcX { job := 24; }
        case 26 =>
          if arcErr > arcDx + arcY { yPos := true; arcY := arcY + 1; }
          arcX := arcX + 1;
          xPos := true;
          if arcX >= 0 { job := 25; }
        case 27 =>
          if arcErr <= arcDy + arcX { xPos := true; arcX := arcX + 1; }
          arcY := arcY + 1;
          yPos := true;
          if arcX > -arcY { job := 26; }
      }
    }

    method SelectCwLower() returns (xNeg: bool, xPos: bool, yNeg: bool, yPos: bool)
      requires arcDx == 2 * arcX && arcDy == 2 * arcY && 28 <= job < 32
      modifies this`job, this`arcX, this`arcY
      ensures !(xNeg && xPos) && !(yNeg && yPos)
      ensures (Delta(xNeg, xPos), Delta(yNeg, yPos)) == Choice(old(job), old(arcX), old(arcY), arcErr)
      ensures arcX == old(arcX) + Delta(xNeg, xPos) && arcY == old(arcY) + Delta(yNeg, yPos)
      ensures job == Relabel(old(job), arcX, arcY)
    {
      xNeg, xPos, yNeg, yPos := false, false, false, false;
      match job {
        case 28 =>
          if arcErr > -arcX + arcDy { xNeg := true; arcX := arcX - 1; }
          arcY := arcY + 1;
          yPos := true;
          if arcY >= 0 { job := 27; }
        case 29 =>
          if arcErr <= -arcDx + arcY { yPos := true; arcY := arcY + 1; }
          arcX := arcX - 1;
          xNeg := true;
          if arcX < arcY { job := 28; }
        case 30 =>
          if arcErr > -(arcDx + arcY) { yNeg := true; arcY := arcY - 1; }
          arcX := arcX - 1;
          xNeg := true;
          if arcX <= 0 { job := 29; }
        case 31 =>
          if arcErr <= -(arcX + arcDy) { xNeg := true; arcX := arcX - 1; }
          arcY := arcY - 1;
          yNeg := true;
          if arcX < -arcY { job := 30; }
      }
    }

    method SelectFlags() returns (xNeg: bool, xPos: bool, yNeg: bool, yPos: bool)
      requires arcDx == 2 * arcX && arcDy == 2 * arcY && IsArc(job)
      modifies this`job, this`arcX, this`arcY
      ensures !(xNeg && xPos) && !(yNeg && yPos)
      ensures (Delta(xNeg, xPos), Delta(yNeg, yPos)) == Choice(old(job), old(arcX), old(arcY), arcErr)
      ensures arcX == old(arcX) + Delta(xNeg, xPos) && arcY == old(arcY) + Delta(yNeg, yPos)
      ensures job == Relabel(old(job), arcX, arcY)
    {
      if job < 20 {
        xNeg, xPos, yNeg, yPos := SelectCcwUpper();
      } else if job < 24 {
        xNeg, xPos, yNeg, yPos := SelectCcwLower();
      } else if job < 28 {
        xNeg, xPos, yNeg, yPos := SelectCwUpper();
      } else {
        xNeg, xPos, yNeg, yPos := SelectCwLower();
      }
    }

    // The bookkeeping of the flags, and the steps of the motors.
    method Trace(xNeg: bool, xPos: bool, yNeg: bool, yPos: bool, ghost x0: int, ghost y0: int)
      requires !(xNeg && xPos) && !(yNeg && yPos)
      requires arcDx == 2 * x0 && arcDy == 2 * y0
      modifies this`arcDx, this`arcDy, this`arcErr, this`position
      ensures arcDx == 2 * (x0 + Delta(xNeg, xPos)) && arcDy == 2 * (y0 + Delta(yNeg, yPos))
      ensures arcErr == old(arcErr) - Growth(x0, xNeg, xPos) - Growth(y0, yNeg, yPos)
      ensures position == Plus(old(position), Vec(Delta(xNeg, xPos), Delta(yNeg, yPos), 0))
    {
      if xNeg {
        arcErr := arcErr + arcDx - 1;
        arcDx := arcDx - 2;
        position := position.(x := position.x - 1);
      }
      if xPos {
        arcDx := arcDx + 2;
        arcErr := arcErr - (arcDx - 1);
        position := position.(x := position.x + 1);
      }
      if yNeg {
        arcErr := arcErr + arcDy - 1;
        arcDy := arcDy - 2;
        position := position.(y := position.y - 1);
      }
      if yPos {
        arcDy := arcDy + 2;
        arcErr := arcErr - (arcDy - 1);
        position := position.(y := position.y + 1);
      }
    }

    // One point further along the arc.
    method ArcStep()
      requires Valid() && IsArc(job)
      modifies this`job, this`arcX, this`arcY, this`arcDx, this`arcDy, this`arcErr, this`position
      ensures arcDx == 2 * arcX && arcDy == 2 * arcY && IsArc(job)
      ensures Stored(IsClockwise(old(job)),
                     LiveStep(IsClockwise(old(job)), FrameOf(old(job), old(arcX), old(arcY), old(arcErr))),
                     job, arcX, arcY, arcErr)
      ensures position == Plus(old(position), Vec(arcX - old(arcX), arcY - old(arcY), 0))
    {
      hide LiveStep, FrameOf, Choice, Relabel, Place;
      ghost var job0, x0, y0, err0 := job, arcX, arcY, arcErr;
      var xNeg, xPos, yNeg, yPos := SelectFlags();
      Trace(xNeg, xPos, yNeg, yPos, x0, y0);
      GrowthOfSquare(x0, xNeg, xPos);
      GrowthOfSquare(y0, yNeg, yPos);
      LiveStepInWorld(job0, x0, y0, err0, arcX, arcY, arcErr);
    }

    method ArcKernel() returns (busy: bool)
      requires Valid() && IsArc(job)
      modifies this`job, this`arcX, this`arcY, this`arcDx, this`arcDy, this`arcErr, this`position, this`stepsToGo, this`ocr1a
      ensures busy ==> Valid() && IsArc(job) && JobEnd() == old(JobEnd()) && TicksLeft() == old(TicksLeft()) - 1 > 0
      ensures !busy ==> position == old(JobEnd()) && old(TicksLeft()) == 1
      ensures ocr1a == ArcTicks(baseTicks, arcRadius, arcX, arcY)
    {
      ghost var job0, x0, y0, err0, position0 := job, arcX, arcY, arcErr, position;
      ArcStep();
      ArcEndAfterStep(position0, job0, x0, y0, err0, position, job, arcX, arcY, arcErr, Countdown(stepsToGo));
      ocr1a := ArcTicks(baseTicks, arcRadius, arcX, arcY);
      stepsToGo := if stepsToGo == 0 then WIDTH - 1 else stepsToGo - 1;
      busy := stepsToGo != 0;
    }

    // Search for the switches (they exist for X and Y only), then for the
    // points where they open again; there the position is known.
    method HomeKernel(switches: Axes) returns (busy: bool)
      requires Valid() && job in {HOME, HOME_REF}
      modifies this`job, this`axes, this`home, this`position, this`direction, this`ocr1a
      ensures busy ==> Valid() && job in {HOME, HOME_REF} && JobEnd() == old(JobEnd())
      ensures !busy ==> position == old(JobEnd()) && old(TicksLeft()) == 1
      ensures !old(Searching()) ==> !busy
      ensures ocr1a == if busy && job == old(job) then old(ocr1a) else 65535
      ensures var first := old(job) == HOME;
        var moving := Axes(old(axes.x) && switches.x != first, old(axes.y) && switches.y != first, false);
        if Any(moving) then
          && busy && job == old(job) && axes == moving && position.z == old(position.z)
          && position.x == old(position.x) + (if !moving.x then 0 else if first then -1 else 1)
          && position.y == old(position.y) + (if !moving.y then 0 else if first then 1 else -1)
        else
          && busy == (old(job) == HOME)
          && (busy ==>
                && job == HOME_REF && axes == old(home) && position == old(position))
    {
      if job == HOME {
        if axes.x && switches.x { axes := axes.(x := false); }
        if axes.y && switches.y { axes := axes.(y := false); }
        axes := axes.(z := false);
        StepHoming();
        if Any(axes) {
          return true;
        }
        axes := home;
        direction := Vec(-X_HOME_DIR, -Y_HOME_DIR, -Z_HOME_DIR);
        job := HOME_REF;
        ocr1a := 65535;
        return true;
      } else {
        if axes.x && !switches.x { axes := axes.(x := false); }
        if axes.y && !switches.y { axes := axes.(y := false); }
        axes := axes.(z := false);
        StepHoming();
        if Any(axes) {
          return true;
        }
        axes, home := home, NO_AXES;
        position := Referenced(position, refpos, axes);
        job := IDLE;
        ocr1a := 65535;
        return false;
      }
    }

    method StepHoming()
      modifies this`position
      ensures position == Stepped(old(position), axes, direction)
    {
      if axes.x { position := position.(x := position.x + direction.x); }
      if axes.y { position := position.(y := position.y + direction.y); }
      if axes.z { position := position.(z := position.z + direction.z); }
    }

    // Work on the current job.
    method RunJob(switches: Axes) returns (busy: bool)
      requires Valid()
      modifies this
      ensures busy ==> Valid() && job != IDLE && JobEnd() == old(JobEnd())
      ensures busy && !old(Searching()) ==> TicksLeft() == old(TicksLeft()) - 1 && !Searching()
      ensures !busy ==> position == old(JobEnd()) && 0 <= baseTicks < 0x1_0000
      ensures !busy && !old(Searching()) ==> old(TicksLeft()) == if old(job) == IDLE then 0 else 1
      ensures old(job) == MOVE_TO && old(Any(axes)) ==>
        ocr1a == Ramp.MoveTicks(old(baseTicks), old(stepsTotal), old(stepsTotal - stepsToGo))
      ensures old(job) == LINE ==> ocr1a == old(baseTicks)
      ensures IsArc(old(job)) ==> ocr1a == ArcTicks(old(baseTicks), old(arcRadius), arcX, arcY)
      ensures old(job) in {HOME, HOME_REF} ==> ocr1a == if busy && job == old(job) then old(ocr1a) else 65535
    {
      if IsArc(job) {
        busy := ArcKernel();
      } else if job == LINE {
        busy := LineKernel();
      } else if job == MOVE_TO {
        busy := MoveKernel();
      } else if job == HOME || job == HOME_REF {
        busy := HomeKernel(switches);
      } else {
        busy := false;
      }
    }

    method GoIdle()
      requires 0 <= baseTicks < 0x1_0000
      modifies this`job
      ensures Valid() && job == IDLE && JobEnd() == position && TicksLeft() == 0
    {
      job := IDLE;
    }

    // Take the next job from the queue.
    method Load(b: Block)
      requires Valid() && ValidBlock(b)
      modifies this
      ensures Valid() && job != IDLE && position == old(position)
      ensures JobEnd() == Effect(b, position)
      ensures TicksLeft() == BlockTicks(b)
      ensures Searching() <==> b.Reference? && b.search
      ensures b.Reference? ==> job == (if b.search then HOME else HOME_REF) && home == b.axes && refpos == b.pos
      ensures b.Reference? && b.search ==> axes == b.axes && direction.x == -1 && direction.y == 1
      ensures ocr1a == baseTicks && (job != BAD_OCTANT ==> baseTicks == b.ticks)
      ensures IsArc(job) ==> b.Arc? && arcRadius == b.radius && axes == Axes(true, true, false)
    {
      match b {
        case Straight(j, s, back, ticks, laser) =>
          LoadStraight(j, s, back, ticks);
        case Arc(octant, stepcount, x, y, err, radius, ticks, laser) =>
          job := octant;
          if IsArc(octant) {
            LoadArc(stepcount, x, y, err, radius, ticks);
          }
        case Reference(search, pos, a, ticks) =>
          LoadReference(search, pos, a, ticks);
      }
      ocr1a := baseTicks;
    }

    method LoadArc(stepcount: int, x: int, y: int, err: int, radius: int, ticks: int)
      requires IsArc(job) && 0 <= stepcount < WIDTH && 0 <= ticks < 0x1_0000
      modifies this
      ensures Valid() && job == old(job) && position == old(position)
      ensures JobEnd() == ArcEnd(position, job, x, y, err, Countdown(stepcount))
      ensures TicksLeft() == Countdown(stepcount) && baseTicks == ticks && arcRadius == radius && axes == Axes(true, true, false)
    {
      stepsTotal, stepsToGo := stepcount, stepcount;
      arcX, arcDx, arcY, arcDy := x, 2 * x, y, 2 * y;
      arcErr, arcRadius := err, radius;
      baseTicks := ticks;
      axes := Axes(true, true, false);
    }

    method LoadReference(search: bool, pos: Vec, a: Axes, ticks: int)
      requires 0 <= ticks < 0x1_0000
      modifies this
      ensures Valid() && job == (if search then HOME else HOME_REF) && position == old(position)
      ensures JobEnd() == Referenced(position, pos, a)
      ensures (Searching() <==> search) && baseTicks == ticks
      ensures refpos == pos
      ensures if search then axes == home == a && direction.x == -1 && direction.y == 1 else axes == NO_AXES && home == a
    {
      if search {
        job := HOME;
        axes, home := a, a;
        direction := Vec(X_HOME_DIR, Y_HOME_DIR, Z_HOME_DIR);
      } else {
        job := HOME_REF;
        axes, home := NO_AXES, a;
      }
      refpos := pos;
      baseTicks := ticks;
    }

    method LoadStraight(j: int, s: Vec, back: Axes, ticks: int)
      requires j in {MOVE_TO, LINE} && 0 <= ticks < 0x1_0000
      requires 0 <= s.x < WIDTH && 0 <= s.y < WIDTH && 0 <= s.z < WIDTH
      modifies this
      ensures Valid() && job == j && position == old(position)
      ensures JobEnd() == StraightEnd(position, s, back)
      ensures TicksLeft() == Max(1, Longest(s)) && baseTicks == ticks
    {
      job := j;
      steps := s;
      axes := Axes(s.x != 0, s.y != 0, s.z != 0);
      stepsTotal := Longest(s);
      stepsToGo := stepsTotal;
      var c := Register(-(stepsTotal / 2));
      stepCtr := Vec(c, c, c);
      direction := Vec(Direction(back.x), Direction(back.y), Direction(back.z));
      baseTicks := ticks;
    }
  }

  function Stepped(position: Vec, axes: Axes, direction: Vec): Vec {
    Vec(if axes.x then position.x + direction.x else position.x,
        if axes.y then position.y + direction.y else position.y,
        if axes.z then position.z + direction.z else position.z)
  }

  const X_HOME_DIR := -1
  const Y_HOME_DIR := 1
  const Z_HOME_DIR := 0

  // The timer value on the arc: a 32 bit product, a quotient, kept in 16 bits.
  // The centre itself has no timer value (the quotient has a zero divisor).
  function ArcTicks(base: int, radius: int, x: int, y: int): int {
    var m := Max(Abs(x), Abs(y));
    if m == 0 then 0xffff else base * radius % 0x1_0000_0000 / m % 0x1_0000
  }

  // Octant test after the step: the interrupt's tracer.
  lemma LiveStepInWorld(octant: int, x: int, y: int, err: int, x': int, y': int, err': int)
    requires IsArc(octant)
    requires (x', y') == (x + Choice(octant, x, y, err).0, y + Choice(octant, x, y, err).1)
    requires err' + x' * x' + y' * y' == err + x * x + y * y
    ensures Stored(IsClockwise(octant), LiveStep(IsClockwise(octant), FrameOf(octant, x, y, err)),
                   Relabel(octant, x', y'), x', y', err')
  {
    var clockwise := IsClockwise(octant);
    var p := FrameOf(octant, x, y, err);
    FrameRoundTrip(octant, x, y, err);
    StoredFrame(clockwise, p, octant, x, y, err);
    ChoiceIsRule(octant, x, y, err);
    AdvanceKeepsCircle(err + x * x + y * y, p);
    PlaceSquare(clockwise, Advance(p), x', y');
    AdvanceKeepsOctant(clockwise, p);
    RelabelIsNext(Advance(p), clockwise, octant, x', y');
    LabelKeepsPlace(clockwise, Advance(p));
  }

  // Laps do not matter to where a run ends.
  lemma {:induction false} LiveRunLap(clockwise: bool, p: Tracer, q: Tracer, n: nat)
    requires q == p.(quadrant := q.quadrant) && q.quadrant % 4 == p.quadrant % 4
    ensures var a, b := LiveRun(clockwise, p, n), LiveRun(clockwise, q, n);
      b == a.(quadrant := b.quadrant) && b.quadrant % 4 == a.quadrant % 4
  {
    if n > 0 {
      LiveRunLap(clockwise, p, q, n - 1);
      LiveStepLap(clockwise, LiveRun(clockwise, p, n - 1), LiveRun(clockwise, q, n - 1));
    }
  }

  lemma LiveStepLap(clockwise: bool, p: Tracer, q: Tracer)
    requires q == p.(quadrant := q.quadrant) && q.quadrant % 4 == p.quadrant % 4
    ensures var a, b := LiveStep(clockwise, p), LiveStep(clockwise, q);
      b == a.(quadrant := b.quadrant) && b.quadrant % 4 == a.quadrant % 4
  {
    assert Advance(q) == Advance(p).(quadrant := q.quadrant);
  }

  lemma PlaceLap(clockwise: bool, p: Tracer, q: Tracer)
    requires q == p.(quadrant := q.quadrant) && q.quadrant % 4 == p.quadrant % 4
    ensures Place(clockwise, p) == Place(clockwise, q)
  {}

  // The rest of a run leads to the same place, from whichever lap it is seen.
  lemma RunEndAfterStep(clockwise: bool, p: Tracer, frame: Tracer, n: nat)
    requires n >= 1
    requires frame == LiveStep(clockwise, p).(quadrant := LiveStep(clockwise, p).quadrant % 4)
    ensures Place(clockwise, LiveRun(clockwise, frame, n - 1)) == Place(clockwise, LiveRun(clockwise, p, n))
  {
    var next := LiveStep(clockwise, p);
    LiveRunFromStep(clockwise, p, n - 1);
    LiveRunLap(clockwise, next, frame, n - 1);
    PlaceLap(clockwise, LiveRun(clockwise, next, n - 1), LiveRun(clockwise, frame, n - 1));
  }

  // One tick nearer to the end of an arc, the end is the same.
  lemma ArcEndAfterStep(pos: Vec, octant: int, x: int, y: int, err: int,
                        pos': Vec, octant': int, x': int, y': int, err': int, n: nat)
    requires IsArc(octant) && n >= 1
    requires Stored(IsClockwise(octant), LiveStep(IsClockwise(octant), FrameOf(octant, x, y, err)), octant', x', y', err')
    requires pos' == Plus(pos, Vec(x' - x, y' - y, 0))
    ensures IsArc(octant')
    ensures ArcEnd(pos', octant', x', y', err', n - 1) == ArcEnd(pos, octant, x, y, err, n)
    ensures n == 1 ==> pos' == ArcEnd(pos, octant, x, y, err, n)
  {
    var clockwise := IsClockwise(octant);
    var next := LiveStep(clockwise, FrameOf(octant, x, y, err));
    StoredFrame(clockwise, next, octant', x', y', err');
    RunEndAfterStep(clockwise, FrameOf(octant, x, y, err), FrameOf(octant', x', y', err'), n);
    ArcEndNow(pos', octant', x', y', err');
  }

  lemma ArcEndNow(pos: Vec, octant: int, x: int, y: int, err: int)
    requires IsArc(octant)
    ensures ArcEnd(pos, octant, x, y, err, 0) == pos
  {
    FrameRoundTrip(octant, x, y, err);
  }
}
