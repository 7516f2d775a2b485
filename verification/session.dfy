// Whole runs: any sequence of commands to the planner, with any interrupts in
// between.
module Session {
  import opened ArcDryRun
  import opened ArcOctants
  import opened Motion
  import opened Planner
  import opened Stepper
  import Lengths

  datatype Command =
    | Linear(to: Vec, lasing: bool, speed: int)
    | Circular(to: Vec, cx: int, cy: int, ccw: bool, speed: int)
    | Referenced(to: Vec, axes: Axes)

  predicate Acceptable(c: Command) {
    && Reachable(c.to)
    && (c.Circular? ==> Reachable(Vec(c.cx, c.cy, 0)) && c.speed > 0)
  }

  // Arcs are to have a radius, and ends, that the tracer can do exactly.
  ghost predicate InReach(from: Vec, c: Command) {
    c.Circular? ==> exists r :: ArcAbout(r, from, c.to, c.cx, c.cy, c.ccw)
  }

  function DriftAfter(drift: Vec, from: Vec, c: Command): Vec {
    match c
    case Linear(to, lasing, speed) => Plus(drift, LostStep(from, to))
    case Circular(to, cx, cy, ccw, speed) => Plus(drift, LostStep(to.(z := from.z), to))
    case Referenced(to, axes) => DriftAfterReference(drift, from, to, axes)
  }

  function Position(from: Vec, cs: seq<Command>): Vec {
    if cs == [] then from else cs[|cs| - 1].to
  }

  ghost predicate AllInReach(from: Vec, cs: seq<Command>) {
    cs != [] ==> AllInReach(from, cs[..|cs| - 1]) && InReach(Position(from, cs[..|cs| - 1]), cs[|cs| - 1])
  }

  function TotalDrift(drift: Vec, from: Vec, cs: seq<Command>): Vec {
    if cs == [] then drift
    else
      var before := cs[..|cs| - 1];
      DriftAfter(TotalDrift(drift, from, before), Position(from, before), cs[|cs| - 1])
  }

  // The job is of the kind and with the options that the command asks for.
  ghost predicate Asked(b: Block, c: Command, from: Vec, laser: LaserSettings) {
    match c
    case Linear(to, lasing, speed) =>
      && b.Straight? && b.job == (if lasing then LINE else MOVE_TO)
      && b.laser.mode == (if lasing then laser.mode else LASER_MODE_OFF)
      && (lasing ==> b.laser.power == laser.power && b.laser.pulseUs == laser.pulseUs && b.laser.modulation == laser.modulation)
      && exists um :: Lengths.IsRoot(um, SquaredWay(from, to)) && StepTakes(b.ticks, um, if lasing then speed else speed + 1, from, to)
    case Circular(to, cx, cy, ccw, speed) =>
      to.z == from.z ==>
        && b.Arc? && b.octant == GetOctant(from.x - cx, from.y - cy, ccw) && b.x == from.x - cx && b.y == from.y - cy
        && b.laser.mode == laser.mode && b.laser.power == laser.power && b.laser.pulseUs == laser.pulseUs
        && b.laser.modulation == laser.modulation
        && (5000 <= speed <= 100_984 ==> b.ticks * (79_220 * speed) <= 16_000_000 * 1_000_000 < (b.ticks + 1) * (79_220 * speed))
    case Referenced(to, axes) => b.Reference? && b.search == Any(axes) && b.pos == to && (Any(axes) ==> b.axes == axes)
  }

  // G28: it takes as long as the switches want it to.
  predicate Searches(c: Command) { c.Referenced? && Any(c.axes) }

  ghost predicate NoSearch(cs: seq<Command>) { forall c :: c in cs ==> !Searches(c) }

  ghost predicate AllPatient(irqs: seq<Schedule>) { forall s :: s in irqs ==> Patient(s) }

  method Obey(pl: PlannerState, c: Command, irqs: Schedule, irqsOfMove: Schedule) returns (done: bool)
    requires pl.Valid() && Acceptable(c)
    modifies pl, pl.arc, pl.machine.motor, pl.machine.queue, pl.machine.queue.data
    ensures pl.Valid()
    ensures done ==> pl.position == c.to
    ensures done && InReach(old(pl.position), c) ==> pl.Drift() == DriftAfter(old(pl.Drift()), old(pl.position), c)
    ensures !old(pl.machine.Searching()) && Patient(irqs) && Patient(irqsOfMove) ==> done
    ensures !old(pl.machine.Searching()) && !Searches(c) ==> !pl.machine.Searching()
    ensures pl.laser == old(pl.laser)
    ensures done && (c.Circular? ==> c.to.z == old(pl.position.z)) ==> pl.machine.queue.Contents() != [] && Asked(pl.machine.NewestJob(), c, old(pl.position), pl.laser)
  {
    pl.target := c.to;
    match c {
      case Linear(to, lasing, speed) =>
        ghost var um;
        if lasing {
          done, um := pl.Line(speed, irqs);
          LineRate(LINE, old(pl.position), to, um, speed, pl.OptionsFor(pl.LinePulses(um)));
        } else {
          done, um := pl.Move(speed, irqs);
          LineRate(MOVE_TO, old(pl.position), to, um, speed + 1, LASER_OFF);
        }
      case Circular(to, cx, cy, ccw, speed) =>
        done := ObeyArc(pl, cx, cy, ccw, speed, irqs, irqsOfMove);
      case Referenced(to, axes) =>
        done := pl.PlanReference(axes, irqs);
    }
  }

  method ObeyArc(pl: PlannerState, cx: int, cy: int, ccw: bool, speed: int, irqs: Schedule, irqsOfMove: Schedule)
    returns (done: bool)
    requires pl.Valid() && Reachable(Vec(cx, cy, 0)) && speed > 0
    modifies pl, pl.arc, pl.machine.motor, pl.machine.queue, pl.machine.queue.data
    ensures pl.Valid() && pl.target == old(pl.target)
    ensures done ==> pl.position == pl.target
    ensures done && (exists r :: ArcAbout(r, old(pl.position), pl.target, cx, cy, ccw)) ==>
      pl.Drift() == Plus(old(pl.Drift()), LostStep(pl.target.(z := old(pl.position.z)), pl.target))
    ensures !old(pl.machine.Searching()) ==> (Patient(irqs) && Patient(irqsOfMove) ==> done) && !pl.machine.Searching()
    ensures pl.laser == old(pl.laser)
    ensures done && pl.target.z == old(pl.position.z) ==>
      pl.machine.queue.Contents() != [] &&
      Asked(pl.machine.NewestJob(), Circular(pl.target, cx, cy, ccw, speed), old(pl.position), pl.laser)
  {
    hide Asked, ArcAbout, FurtherOut, Lengths.IsRoot, PlannerState.ArcFrom, LostStep, Plus;
    pl.centerX, pl.centerY := cx, cy;
    ghost var r;
    done, r := pl.PlanArc(speed, ccw, irqs, irqsOfMove);
    if done && pl.target.z == old(pl.position.z) {
      AskedArc(pl, pl.machine.NewestJob(), r, old(pl.position), speed, ccw);
    }
    if r' :| ArcAbout(r', old(pl.position), pl.target, cx, cy, ccw) {
      RootOfReach(r', old(pl.position), pl.target, cx, cy, ccw);
      Lengths.RootIsUnique(r, r', FurtherOut(old(pl.position), pl.target, cx, cy));
    }
  }

  lemma RootOfReach(r: int, from: Vec, to: Vec, cx: int, cy: int, ccw: bool)
    requires ArcAbout(r, from, to, cx, cy, ccw)
    ensures Lengths.IsRoot(r, FurtherOut(from, to, cx, cy))
  {}

  lemma AskedArc(pl: PlannerState, b: Block, r: int, from: Vec, speed: int, ccw: bool)
    requires pl.target.z == from.z && pl.ArcFrom(b, r, from, speed, ccw)
    ensures Asked(b, Circular(pl.target, pl.centerX, pl.centerY, ccw, speed), from, pl.laser)
  {
    pl.ArcForMeans(b, r, from, speed, ccw);
    hide GetOctant;
  }

  // The planner's position differs from where the head will be by exactly the
  // one-tick jobs since an axis was last referenced; with the queue drained it
  // is where the head is.  All commands are obeyed if none is a search for the
  // switches and the timer keeps interrupting.
  method ObeyAll(pl: PlannerState, cs: seq<Command>, irqs: seq<Schedule>, irqsOfMoves: seq<Schedule>) returns (done: bool)
    requires pl.Valid() && |irqs| == |irqsOfMoves| == |cs|
    requires forall c :: c in cs ==> Acceptable(c)
    modifies pl, pl.arc, pl.machine.motor, pl.machine.queue, pl.machine.queue.data
    ensures pl.Valid()
    ensures done ==> pl.position == Position(old(pl.position), cs)
    ensures done && AllInReach(old(pl.position), cs) ==>
      pl.Drift() == TotalDrift(old(pl.Drift()), old(pl.position), cs)
    ensures !old(pl.machine.Searching()) && AllPatient(irqs) && AllPatient(irqsOfMoves) && NoSearch(cs) ==>
      done && !pl.machine.Searching()
  {
    hide AllInReach, TotalDrift, DriftAfter, InReach, Position, Acceptable, Asked, Searches, Patient;
    NoCommands(pl.Drift(), pl.position, cs[..0]);
    var i := 0;
    done := true;
    while done && i < |cs|
      invariant 0 <= i <= |cs| && pl.Valid()
      invariant done ==> pl.position == Position(old(pl.position), cs[..i])
      invariant done && AllInReach(old(pl.position), cs[..i]) ==>
        pl.Drift() == TotalDrift(old(pl.Drift()), old(pl.position), cs[..i])
      invariant !old(pl.machine.Searching()) && AllPatient(irqs) && AllPatient(irqsOfMoves) && NoSearch(cs) ==>
        done && !pl.machine.Searching()
      decreases |cs| - i, done
    {
      OneMoreCommand(old(pl.Drift()), old(pl.position), cs, i);
      done := Obey(pl, cs[i], irqs[i], irqsOfMoves[i]);
      i := i + 1;
    }
    assert done ==> cs[..i] == cs;
  }

  lemma NoCommands(drift: Vec, from: Vec, cs: seq<Command>)
    requires cs == []
    ensures AllInReach(from, cs) && Position(from, cs) == from && TotalDrift(drift, from, cs) == drift
  {}

  lemma OneMoreCommand(drift: Vec, from: Vec, cs: seq<Command>, i: nat)
    requires i < |cs|
    ensures var before, after := cs[..i], cs[..i + 1];
      && Position(from, after) == cs[i].to
      && TotalDrift(drift, from, after) == DriftAfter(TotalDrift(drift, from, before), Position(from, before), cs[i])
      && (AllInReach(from, after) ==> AllInReach(from, before) && InReach(Position(from, before), cs[i]))
  {
    assert cs[..i + 1][..i] == cs[..i];
  }

  // No straight job of a single tick, and no position that is set by hand
  // while only some axes are referenced.
  ghost predicate Steady(from: Vec, c: Command) {
    match c
    case Linear(to, lasing, speed) => Longest(Distance(from, to)) != 1
    case Circular(to, cx, cy, ccw, speed) => Longest(Distance(to.(z := from.z), to)) != 1
    case Referenced(to, axes) =>
      Any(axes) ==> (axes.x || to.x == from.x) && (axes.y || to.y == from.y) && (axes.z || to.z == from.z)
  }

  ghost predicate AllSteady(from: Vec, cs: seq<Command>) {
    cs != [] ==> AllSteady(from, cs[..|cs| - 1]) && Steady(Position(from, cs[..|cs| - 1]), cs[|cs| - 1])
  }

  // Then nothing ever drifts.
  lemma {:induction false} SteadyDoesNotDrift(from: Vec, cs: seq<Command>)
    requires AllSteady(from, cs)
    ensures TotalDrift(ORIGIN, from, cs) == ORIGIN
  {
    if cs != [] {
      SteadyDoesNotDrift(from, cs[..|cs| - 1]);
    }
  }

  // Moves of one step each, however many, are all lost: the planner counts
  // them, and the head stays where it is.
  lemma {:induction false} SingleStepsAreLost(from: Vec, cs: seq<Command>)
    requires forall i :: 0 <= i < |cs| ==> cs[i].Linear? && Longest(Distance(Position(from, cs[..i]), cs[i].to)) == 1
    ensures TotalDrift(ORIGIN, from, cs) == Minus(Position(from, cs), from)
  {
    if cs != [] {
      var before := cs[..|cs| - 1];
      forall i | 0 <= i < |before| ensures before[i] == cs[i] && before[..i] == cs[..i] {}
      SingleStepsAreLost(from, before);
    }
  }
}
