# FreeCNC: a model of the motion and raster firmware

FreeCNC drives a laser cutter. Text arrives over a serial line; a parser takes it
apart character by character; a planner turns commands into jobs; jobs wait in a
ring buffer; and a timer interrupt fetches them one by one, steps the motors and
clocks raster data out to the laser. Everything is integer arithmetic on the state
of an 8-bit machine. On the host, a renderer cuts a picture into pieces and packs
its pixels, and a sender frames each line with a checksum. An AVR simulator that
comes with the firmware runs it on a PC.

The files follow that path:

| files | part |
|---|---|
| `arc_tracer`, `arc_coverage`, `arc_octants` | the two arc tracers as rules in a turned frame, what they keep, what they cannot miss, and the sixteen octants that store that frame |
| `arc_dry_run`, `arc_hits`, `arc_accuracy`, `arc_limits` | the planner's dry run, when it ends exactly on target and after how many ticks, register widths, angle and timer, and where the promises end |
| `dda`, `ramp`, `motion`, `stepper` | step counters, the speed ramp, jobs, and the motion half of the interrupt |
| `ring`, `ring_protocol` | the ring buffer as an object, and under every interleaving of its two users |
| `machine`, `planner`, `session` | planner, queue and interrupt together; whole runs of commands |
| `raster_supply`, `laser`, `raster`, `base64`, `raster_lines`, `raster_prefix`, `engraving` | the raster pipeline from pixels to pulses, and when data come in time |
| `gcode_line`, `parser`, `parsed_lines`, `line_grammar`, `sender`, `checksum_gate`, `printer`, `numbers` | the line parser, what a line may look like, the checksum protocol, printing and reading numbers |
| `gcode`, `lengths` | destinations, unit conversion, square root |
| `render` | cutting picture lines into pieces and drawing them with relative moves |
| `avr_flags`, `avr_alu`, `avr_cpu` | the simulator's flag tables and its additions and subtractions |
| `arithmetic`, `bits` | what the proofs have in common |

State that the firmware updates in place is a class here, and its methods are proved
against functions on values; the theorems are about these functions and about the
classes' runs.

## What came out

The code was followed where it and its comments disagree. These are the results a
maintainer may want to know:

- **Arcs.** "Always exact match" holds for every arc whose target is at least the root
  of 65 steps from the centre and whose start error lies within `2 - 2m .. 2m + 1` (`m`
  the larger start coordinate; `3 - 2m` for clockwise arcs that begin on an axis), unless
  the larger squared radius is one of 80, 97, 98, 136, 137, 193 and 194. For these seven
  the allowance of six radii is too small for a lap, and for no other: `ArcLimits.SixRadii`
  is an equivalence about where the head is after the ticks stored in the job. So radii of 10, 12, and 14 steps or more are always safe, and a full
  circle clockwise from (13, -5) stops beside its target. Both ends of the window are
  sharp at every radius (`MissAboveWindow`, `MissBelowWindow`, `MissBelowWindowOnAxis`).
- **Near hits.** A start error within half a step always ends with an exact hit
  (`ArcHits.TightStartHits`). In the wider window the dry run may end one point beside the
  target, but the interrupt does not; `ArcHits.HitOrNear` says exactly for which starts,
  and that it happens in the second or third tick only.
- **One-tick jobs.** The configuration selects the assembly form of the step counter. It
  steps on carry, so a job whose longest axis has one step starts from zero, never
  carries, and is lost. The planner counts it all the same. `Session.ObeyAll` accounts
  for it exactly; `SteadyDoesNotDrift` and `SingleStepsAreLost` are the two extremes.
- **Raster data in time.** A line is shown exactly, and the laser is ready for the next
  one, if and only if no byte is late. Lateness is a function of the order of ticks and
  deliveries, the pulse counter and the depth (`RasterSupply.Late`); one delivery between
  any two ticks is enough at any depth (`Engraving.PromptIsInTime`).
- **Left-over raster bits.** When a job is fetched, the bit buffer is declared empty but
  not cleared. Of a job that shows k values of n bits, the bits from n k on of the last
  byte fetched are left, and are ored into the first byte of the next line; that byte is
  read as it is, whatever it is, if and only if they are zero (`LaserPulses.LeftoverBits`).
  A black pixel sent as a byte of ones makes the next line begin with one
  (`LaserPulses.StaleBits`). The renderer pads with zeros, so its lines are safe in
  sequence (`Engraving.Engrave`).
- **Waiting for room.** A planner call waits no longer for a free slot than the job under
  way takes, unless that is a search for the switches (`Machine.Push`).
- **What the checksum is of.** What a line's checksum is compared with can be told from
  the text alone: `ChecksumGate.Compared` holds for every line. It is the exclusive or of
  the bytes before the first '*' if and only if those that are still summed behind it
  cancel out (`SumOfBeginning`). If a digit comes first after the '*', and fewer than 256
  are read, there are none (`ComparedWithSum`). With a comment there instead, the sum goes
  on in that (`SumGoesOn`); 256 noughts count as none, and nothing is compared
  (`DigitsUncounted`); and words after a number and a comment are executed, but not summed
  (`WordsAfterNumber`).
- **Long moves.** The ramp keeps the distance to the nearer end in 16 bits. For moves of
  more than 131072 steps that wraps in the middle, and the ramp starts anew, unless the
  base timer value is below 2016 (`Ramp.RampFalls`).
- **Large arcs at low speed.** The timer quotient is taken of a 32-bit product and is
  right exactly if that product fits (`ArcAccuracy.TimerIsExact`). At the slowest speed it
  does not from a radius of 106330 steps on (`SlowArcs`).
- **Numbers.** The overflow test of the number parser is one for unsigned numbers;
  2147484 is stored as a negative number (`Numbers.ScaledIsExact`, `OverflowUnnoticed`).
  The most negative 32-bit number is printed as zeros (`Numbers.PrintAndRead`).
- **Negative positions.** C division truncates, so converting a position to micrometres
  and back is exact if and only if it is not negative (`Lengths.RoundTrip`).
- **Half carry.** The simulator's half carry of a subtraction is the borrow from bit 4 if
  and only if bit 3 of the result is that of the minuend (`AvrAlu.SubHalfCarry`).
- **White stretches.** The renderer's comment asks for runs of at least 16 white pixels;
  the code leaves out runs of 17 or more (`Rendering.RenderLine`).

## Model

| member | source | states |
|---|---|---|
| ArcTracer.AdvanceKeepsCircle | stepper.c:386-434 | one step of either rule leaves the error plus the squared coordinates at the squared target radius |
| ArcTracer.LiveStepTracks | stepper.c:154-434 | from any admissible start, the point after an interrupt step has its octant label in agreement with it and the error inside the window |
| ArcTracer.LiveStepStaysTight | stepper.c:154-434 | once within half a step of the ideal circle, the interrupt stays there |
| ArcTracer.LiveRunTracks | stepper.c:148-476 | label and window hold after any number of ticks |
| ArcTracer.LiveRunStaysTight | stepper.c:148-476 | the error stays within the larger coordinate plus one for whole runs |
| ArcTracer.JoinedStep | arc.c:89-270 | from a common point, dry run and interrupt next agree or differ only in the octant they are in |
| ArcTracer.LaggingStep | arc.c:89-270 | with the octants apart, the next points agree or are one point apart in one coordinate |
| ArcTracer.ApartStep | arc.c:89-270 | one point apart, the next step rejoins them |
| ArcTracer.RunsStayRelated | arc.c:89-339 | dry run and interrupt are joined, lagging or one point apart after every number of ticks |
| ArcTracer.RunsRejoin | stepper.c:148-476 | whenever they have come apart they are together again within two ticks |
| ArcCoverage.OnePerRow | arc.c:310-338 | on a row or column near the circle the window leaves room for one lattice point only |
| ArcCoverage.NothingSkipped | stepper.c:154-434 | no lattice point on the target circle is passed over by a step |
| ArcCoverage.ClockAdvances | arc.c:348 | every step brings the tracer nearer to the end of its lap, as measured against 6R |
| ArcCoverage.ReachesTarget | arc.c:341-348 | where a lap fits, a run of at most 6R steps comes to any given lattice point of the target circle |
| ArcCoverage.StepsWithinOctant | arc.c:378-407 | an arc inside one octant takes as many steps as the coordinate along it changes |
| ArcOctants.FrameRoundTrip | stepper.h:27-45 | octant label and point determine the turned frame, and are determined by it |
| ArcOctants.GetOctantFrame | arc.c:60-82 | the octant chosen at the start is the one whose half quadrant the point lies in, for both directions |
| ArcOctants.ChoiceIsRule | stepper.c:154-385 | the choices of all sixteen octants are two rules seen from turned and mirrored frames |
| ArcOctants.RelabelIsNext | stepper.c:154-385 | the tests of all sixteen octants are the two ends of a half quadrant, strict for clockwise arcs |
| ArcOctants.GrowthOfSquare | stepper.c:386-434 | the running differences dx and dy update the error by exactly the change of the square |
| ArcDryRun.ArcPlanner.Kernel | arc.c:89-339 | a call is one step of the dry-run tracer, with the report its new point deserves and the allowance counted down |
| ArcDryRun.ArcPlanner.CountSteps | arc.c:385-386 | the loop stops at the first tick with something to report, after as many calls |
| ArcDryRun.ArcPlanner.BufferArc | arc.c:361-413 | the stored count is that of the first report, for the label and error that the interrupt will start with |
| ArcDryRun.HitTestOnCircle | arc.c:310-334 | inside the window a report is a hit, and on the target only |
| ArcDryRun.HitTestApart | arc.c:310-334 | a point one step too far out reports a near hit exactly when the point without that step is the target |
| ArcDryRun.DryReports | arc.c:310-334 | the dry run reports at exactly the ticks at which the interrupt is on the target, and a near hit only while they are one point apart |
| ArcDryRun.CircleIsInReach | arc.c:379-383 | arcs whose ends are equally far from the centre are always inside the window |
| ArcDryRun.ExactMatch | arc.c:379-386 | for every arc in reach the counted number of interrupt ticks ends on the target and the allowance is not used up |
| ArcHits.HitOrNear | arc.c:310-338 | the dry run ends on the target itself, except for exactly those starts next to the diagonal and far outside the circle whose target is a point given by their coordinates, two or three ticks on |
| ArcHits.NearHitExample | arc.c:310-338 | the arc from (8, 7) to (6, 8) ends in a near hit, with the interrupt on the target |
| ArcHits.NearHits | arc.c:310-338 | the same for tracers: a near hit if and only if such a start meets such a target |
| ArcHits.TightStartHits | arc.c:310-338 | a start error of at most half a step: HIT, never a near hit, with dry run and interrupt both on the target |
| ArcHits.EveryTickGoesForward | stepper.c:154-385 | every octant has an axis on which each of its steps moves by one |
| ArcHits.TicksWithinOctant | arc.c:378-407 | an arc that ends ahead in the octant it starts in is counted with as many ticks as the coordinate on that axis changes |
| ArcAccuracy.AngleAdvances | stepper.c:154-434 | the cross product of consecutive points has a constant sign: the angle only advances |
| ArcAccuracy.ArcComparisonsFit | stepper.h:99-119 | for all ticks of an arc in reach the compared quantities fit 24 signed bits |
| ArcAccuracy.BaseTicksInRange | planner.c:163-166 | the clamped feed rate gives a timer value between 2000 and 40404 |
| ArcAccuracy.BaseTicksAreAStep | planner.c:163-166 | at every speed the timer value of an arc is the time of one step, rounded down |
| ArcAccuracy.SpeedOfFeed | gcode.c:266-270 | the clamped speed is the feed rate to the nearest micrometre a second, and a bound only if the rate is at or beyond it |
| ArcAccuracy.ArcTimerFits | stepper.c:455-469 | the timer value of every tick of an arc in reach fits 16 bits, and is what the code computes if the product fits 32 bits |
| ArcAccuracy.TimerIsExact | stepper.c:469 | the timer value is the true quotient if and only if the 32-bit product does not overflow |
| ArcAccuracy.SlowArcs | stepper.c:469 | at the slowest speed the timer value is right if and only if the radius is below 106330 steps, and at that radius it is 0 on an axis |
| ArcLimits.SixRadii | arc.c:341-390 | for all arcs in the window with a given larger squared radius the head is on the target after the ticks stored in the job, if and only if that square is not one of seven |
| ArcLimits.LongLaps | arc.c:348 | these seven are where the bound on a lap exceeds the allowance |
| ArcLimits.QuarterTicks | stepper.c:148-476 | a quarter of a circle takes as many ticks as the coordinates add up to just behind the diagonal |
| ArcLimits.LongLap | arc.c:341-390 | a circle whose quarters are too long uses the allowance up, and after the 6R + 1 ticks stored then the head is not on the target |
| ArcLimits.MissAboveWindow | arc.c:379-386 | at every radius, a start error one above the window: an arc that stops beside its target |
| ArcLimits.MissBelowWindow | arc.c:379-386 | at every radius, a start error one below the window: an arc that stops beside its target |
| ArcLimits.MissBelowWindowOnAxis | arc.c:379-386 | the same for clockwise arcs that begin on an axis |
| ArcLimits.TinyCircleRunsOut | arc.c:341-390 | a full circle of radius 2: the dry run uses its 12 steps up; the head is back after 12 ticks, but 13 are stored |
| Dda.CarryIsAtZero | asm.h:46-65 | on the registers of a negative counter the assembly steps as soon as the sum is no longer negative, and leaves it negative |
| Dda.SignedExact | asm.h:43-44 | C form: as many ticks as the longest axis has steps give each axis exactly its own |
| Dda.CarryExact | asm.h:46-65 | assembly form: the same, except that a job of one tick makes no step |
| Dda.CarryExactFromMinusOne | stepper.c:1055-1058 | a counter that starts at -1 has no exception |
| Dda.CarryDeviation | asm.h:46-65 | after any number of ticks an axis is within (total + 1) / (2 total) steps of the straight line |
| Dda.SignedDeviation | asm.h:43-44 | the same for the C form |
| Dda.AdvanceOnCpu | asm.h:46-65 | the nine instructions, run on the simulated CPU, compute the assembly form on 24-bit registers and touch no others |
| Ramp.Encode | stepper.c:96-106 | the code is the greatest one whose decoding is not above the timer value, and there is only one such |
| Ramp.Decode | stepper.c:115-134 | reachable codes are decoded without saturation |
| Ramp.DecodedIncreases | stepper.c:115-134 | larger codes stand for strictly larger timer values |
| Ramp.RampTicks | stepper.c:88-135 | a tick's timer value depends on the distances to both ends only, and is clamped to the fastest and the base rate |
| Ramp.RampIsOneCodeAStep | stepper.c:109-135 | speeding up, the timer value is that of the code one lower for every step from the beginning, until full speed |
| Ramp.RampBegins | stepper.c:88-106 | the first tick has the greatest value a code stands for that is not above the base value, or full speed |
| Ramp.NextTick | stepper.c:108-114 | two ticks in sequence have the clamped values of neighbouring codes, or are both at full speed |
| Ramp.RampIsSymmetric | stepper.c:108-135 | speeding up and slowing down are mirror images, between 2000 and the base value |
| Ramp.RampFalls | stepper.c:109-113 | up to the middle the timer value only falls, if and only if the move has at most 131072 steps or is at full speed throughout, the base value being below 2016 |
| Motion.StraightMoves | planner.c:43-49 | a planned line takes the head by exactly the planned distance, or nowhere if that is one step |
| Motion.FoldAppend | planner.c:69 | one more job in the queue is one more effect at the end |
| Stepper.Motor.MoveKernel | stepper.c:33-138 | a tick leaves the end of the move where it is, takes one from its ticks, and sets the ramp's timer value |
| Stepper.Motor.LineKernel | stepper.c:487-548 | the same without a ramp |
| Stepper.Motor.ArcStep | stepper.c:148-434 | all sixteen octants: a tick is one step of the interrupt's tracer and moves the head by the same |
| Stepper.Motor.ArcKernel | stepper.c:148-476 | a tick leaves the end of the arc where it is and takes one from its ticks |
| Stepper.Motor.HomeKernel | stepper.c:556-699 | every axis still searching goes one step towards home as long as its switch is open, and then one away from home as long as it is closed, and no other moves; whatever the switches say, the referenced axes end at the reference position and the others where they are |
| Stepper.Motor.Load | stepper.c:896-1049 | a fetched job ends where the planner's block says, after the ticks it says, at the rate it says; a search begins with the direction of home and the axes asked for |
| Stepper.Motor.RunJob | stepper.c:842-885 | the timer value of a tick is the ramp's in a move, the base value in a line, and that of the angle in an arc |
| RingBuffer.Ring.Fill | buffer.h:71 | writing the slot at head before the full test changes nothing that is unread |
| RingBuffer.Ring.Push | buffer.h:67 | the filled slot becomes the newest unread element |
| RingBuffer.Ring.Get | buffer.h:70 | the oldest unread element is taken |
| RingBuffer.Ring.Used | buffer.h:69 | the masked difference of the indices is the number of unread elements |
| RingBuffer.Ring.IsFull | buffer.h:65 | full means one slot less than the size |
| RingProtocol.StepIsSafe | buffer.h:58-71 | every single step of producer or consumer keeps what was sent equal to what was received and what is unread |
| RingProtocol.EveryInterleavingIsFifo | buffer.h:58-71 | under every interleaving the outputs are a prefix of the inputs in order, and what was sent is received or unread |
| RingProtocol.UsedIsUnread | buffer.h:69 | the length is that of the unread part in every reachable state |
| Machine.Machine.Irq | stepper.c:842-1072 | no interrupt changes where the head will be when all is done, and each is one tick less work |
| Machine.Machine.Push | planner.c:69-73 | a pushed job is added at the end and nothing else changes; it is pushed at once if there is room, and otherwise within the ticks of the job under way, unless that waits for a switch |
| Machine.Machine.Drain | stepper.c:1082-1089 | when it returns, queue and motor are idle and the head is where the fold over the queue said; without a search it returns after the work there was |
| Planner.TimerQuotient | planner.c:52 | the timer value of a line is its duration divided among the steps of its longer axis, to less than a tick each, if that fits 16 bits |
| Planner.LineRate | planner.c:101 | the block of a line or move takes, for each step of the longer of X and Y, that part of its duration at the speed asked for, rounded down, whenever it fits 16 bits; it has the laser options given |
| Planner.ArcRate | planner.c:163-166 | the timer value stored for an arc is the time of one step at the speed asked for, rounded down, over the whole range of clamped speeds |
| Planner.WayInMicrometres | planner.c:34 | the length of a way is that of its parts along X and Y, each converted to the nearest micrometre, or the one above it when negative |
| Planner.PlannerState.Move | planner.c:31-74 | the job queued last is the way to the target with the laser off, at the speed asked for; the planner is at the target then, and wrong about the head by what it was before plus a lost single step; it is queued if there is room, or if no search is on and interrupts go on |
| Planner.PlannerState.Line | planner.c:77-143 | the same for a lasing line, with the mode, power, pulse length and modulation set, and a pulse count |
| Planner.PlannerState.LinePulses | planner.c:119-120 | pulses as asked for, or as many as fit the length at the rate set |
| Planner.PlannerState.BufferArc | arc.c:361-413 | the block has the octant, error, centre offset and radius of the arc; in reach, it moves the head by the way to the target, and within an octant its step count is the change of the coordinate |
| Planner.PlannerState.QueueArc | planner.c:158-171 | the job queued last starts at the position, about the centre, with the octant, error and radius of the arc, a step in the time of one at that speed, and the laser as set; in reach, it adds nothing to the drift |
| Planner.PlannerState.PlanArc | planner.c:145-176 | an arc, and a way in Z after it: at the target then, with no drift but a lost single step in Z |
| Planner.PlannerState.PlanReference | planner.c:180-210 | the job queued last searches the axes named, or sets all by hand if none is; a referenced axis has no drift left, one set by hand drifts by the change |
| Planner.PlannerState.Drain | stepper.c:1082-1089 | after draining the head is at the planned position less the drift |
| Session.ObeyAll | planner.c:31-210 | after any sequence of commands with any interrupts in between, the drift is exactly the sum over the commands; without a search for the switches all of them are obeyed |
| Session.Obey | planner.c:31-210 | after a command the newest job is of its kind, goes at its speed, with the laser as set or off, and searches if it is to |
| Session.SteadyDoesNotDrift | planner.c:31-210 | without one-tick jobs and half-referenced positions the planner is always right |
| Session.SingleStepsAreLost | stepper.c:964-965 | a sequence of single steps is counted by the planner and not made by the head |
| LaserPulses.Laser.Refill | stepper.c:744-758 | another byte, or zeros on underflow, is appended to the bits not yet shown |
| LaserPulses.Laser.NextValue | stepper.c:743-766 | the value is the first group of the bit stream, the rest is still to come, and fewer than eight bits are kept |
| LaserPulses.Laser.Pulse | stepper.c:738-829 | brightness or pulse length follow the value or the set power, for every mode |
| LaserPulses.CookIsProportional | stepper.c:769-792 | for each bit depth black is 0, white 255, and anything else proportional to less than a level |
| LaserPulses.CookRepeats | stepper.c:769-792 | the level is the value's own bits, repeated until there are eight |
| LaserPulses.Laser.Load | stepper.c:901-942 | a fetched job starts with its options' steps, power, pulse length and modulation, no valid bits, and the counter its mode calls for; with the laser off, all are zero |
| LaserPulses.Laser.Tick | stepper.c:703-831 | a tick fires exactly when the counter steps; then brightness and pulse timer are those of the power and pulse length set, or of the value shown, and otherwise they change with the mode only |
| LaserPulses.BurnPlainly | stepper.c:703-831 | a job without raster data, whole: the laser fires as often as the counter steps, and is left with the power and pulse length of the job's options |
| LaserPulses.Darken | stepper.c:713-730 | after the end of a job the first tick leaves the laser dark, and all others do |
| LaserPulses.Laser.Serve | stepper.c:703-831 | for every interleaving of ticks and deliveries: as many values as the counter says; exactly the bytes needed are fetched, and values and waiting bits are the bits delivered, if and only if no byte is late |
| LaserPulses.ValuesAreUnique | stepper.c:743-766 | two equal bit streams are cut into the same values |
| LaserPulses.FetchedBytes | stepper.c:745-757 | after k values of n bits exactly ceil(k n / 8) bytes were fetched, and fewer than eight bits are left |
| LaserPulses.LeftoverBits | stepper.c:902 | the next line's first byte is read correctly, whatever it is, if and only if the bits after the last value, up to the end of its byte, are zero |
| LaserPulses.StaleBits | stepper.c:902 | two lines of one pixel: what is left of the first darkens the second |
| LaserPulses.OnePixel | stepper.c:743-766 | a line of one pixel shows the top bit of its byte ored with what was left, and leaves the other seven |
| RasterSupply.NeededForNext | stepper.c:744-745 | a value needs another byte exactly if the bits left are fewer than its own |
| RasterSupply.OneByteATickIsEnough | stepper.c:743-757 | with a delivery between any two ticks no byte is late, at any depth |
| RasterSupply.AllAtOnceIsEnough | stepper.c:743-757 | nor is one if all were delivered before |
| RasterSupply.LateByATick | stepper.c:751-757 | a byte that comes one tick later is late |
| RasterData.PackPixels | renderpicture.py:41-62 | the bytes are the pixels' bits in order, followed by fewer than eight zeros |
| RasterData.ChunksJoin | renderpicture.py:63-69 | the chunks of 15 and 48 bytes put together are the bytes |
| RasterData.EncodePixelData | renderpicture.py:33-70 | the lines of text are the base64 forms of these chunks, for either direction |
| Base64.AlphabetIsRead | parser.c:151-160 | each of the 64 characters is read as its own value |
| Base64.ReadingIsUnique | parser.c:151-160 | only the alternative characters of RFC 4648 section 5 are read as an ambiguous value |
| Base64.EncodedCharacters | renderpicture.py:65-68 | an encoding has four characters for three bytes begun, all of the alphabet or padding |
| RasterLines.ReadBase64 | parser.c:404-457 | the parser undoes the encoding of any string of bytes for which its buffer has room |
| RasterLines.DataLineIsRead | parser.c:240-256 | sent with its checksum, a raster line is accepted and its bytes are handed on as they were |
| RasterPrefix.PrefixIntroduces | renderpicture.py:169 | after the words before the data, `G1`, a way of three decimals as X and a number of pixels as Q, the parser is ready for data and has stored just these, with 1 as the command and the number of pixels as the count |
| Engraving.SentLinesAreRead | renderpicture.py:169-170 | all lines of a piece together hand on all its bytes, in order |
| Engraving.AllShown | stepper.c:743-766 | with as many values as pixels, the values are the pixels and only zeros are left |
| Engraving.Transmit | renderpicture.py:33-70 | packing, encoding, framing and parsing yield the packed pixels |
| Engraving.Engrave | stepper.c:743-766 | the whole pipeline: if no byte is late, pixels of any depth up to 8 come out as they went in, all bytes are used and nothing is left for the next line; otherwise some are not used |
| Engraving.Show | stepper.c:703-831 | the same for the job from when it is fetched |
| Engraving.PromptIsInTime | stepper.c:743-757 | a delivery before every tick is enough |
| Engraving.PulsesOfJob | stepper.c:737 | in a whole job the laser fires exactly as often as it is to, if and only if there are as many ticks, and not just one for a single pulse |
| GcodeLine.Interpret | parser.c:277-569 | the machine's invariant: counters and lengths stay in range, and only checksum digits touch the checksum |
| Numbers.ScaledIsExact | parser.c:535-551 | scaling to thousandths is exact if and only if the result fits 31 bits |
| Numbers.ScalingIsRefused | parser.c:539-545 | a step of scaling is an error exactly if its result does not fit 32 bits without a sign |
| Numbers.OverflowUnnoticed | parser.c:541-545 | the first number that is stored with the wrong sign |
| Parser.GcodeParser.StoreNumber | parser.c:535-568 | the scaling loop stores the scaled number and its whole part, or is an error |
| Parser.GcodeParser.EndOfLine | parser.c:198-257 | a command is processed, and raster bytes handed on in order, exactly when the line's reply is positive |
| Parser.GcodeParser.ProcessChar | parser.c:167-570 | a call is one step of the state machine, over all fields |
| ParsedLines.ErrorLasts | parser.c:466-467 | an error lasts until the end of the line |
| ParsedLines.CommentIsIgnored | parser.c:459-464 | a comment in brackets changes nothing but the checksum |
| LineGrammar.RemarkIsIgnored | parser.c:286-493 | after a semicolon nothing counts up to the checksum or the end of the line |
| LineGrammar.SpacesAreIgnored | parser.c:259-285 | white space between words changes nothing but the checksum |
| LineGrammar.BareLetter | parser.c:278-314 | a letter without a number is seen, and nothing else is stored |
| LineGrammar.PlusIsNothing | parser.c:311-335 | a number with a plus sign is read as without |
| LineGrammar.ElevenDigits | parser.c:350-353 | more than ten digits before the point are an error |
| LineGrammar.MoreDecimals | parser.c:386-393 | decimals beyond the third, and those beyond ten digits in all, change nothing but the checksum |
| LineGrammar.WordsNeedSpaces | parser.c:350-402 | a letter or a sign right after a number is an error |
| LineGrammar.NameBegins | parser.c:278-308 | a name begins at a quote, or at a character that no word begins with, and there is only one of the latter kind in a line |
| LineGrammar.NameGoesOn | parser.c:495-526 | each character is added to the name, with a format error as reply from the sixteenth on |
| LineGrammar.NameIsTaken | parser.c:495-526 | all characters up to the end of a name belong to it, whatever they are, and words follow |
| ParsedLines.Gate | parser.c:198-257 | a command is processed if and only if no prefix of its line led into an error and the checksum, required for raster data, is the parser's sum; what that is the sum of, `ChecksumGate.Compared` says |
| ChecksumGate.Compared | parser.c:193-274 | any line at all: executed if and only if it has no error and the digits read as checksum make, modulo 256, the exclusive or of the bytes covered, both told from the text alone |
| ChecksumGate.Gatekeeper | parser.c:193-274 | every line with a '*': executed if and only if it has no error and its number is the exclusive or of the bytes before the first '*' and those still covered behind it |
| ChecksumGate.SumOfBeginning | parser.c:259-274 | a line executed with a number has that of the bytes before the first '*' if and only if the bytes covered behind it cancel out |
| ChecksumGate.ComparedWithSum | parser.c:466-489 | with a digit first after the '*', and fewer than 256 read as checksum, the number is compared with the bytes before the '*', whatever follows |
| ChecksumGate.SumGoesOn | parser.c:259-274 | with a comment after the '*' instead, for every beginning there is a line that is executed with another number |
| ChecksumGate.DigitsUncounted | parser.c:203-221 | with 256 noughts the line is executed as if no checksum had been sent |
| ChecksumGate.WordsAfterNumber | parser.c:466-489 | a comment after the number leads back to words, which are executed but not summed |
| ParsedLines.ParseText | parser.c:167-274 | over a whole stream the commands processed and the raster data handed on are those of exactly the lines that pass the gate, in order |
| LineSender.Sender.SendLine | pysend.py:37-50 | what is written is the stripped line with the exclusive or of its bytes, after as many queries as there were busy replies |
| LineSender.StripTakesSpaces | pysend.py:41-44 | what is taken from a line is white space at its ends, and none is left there |
| LineSender.SumAll | parser.c:268-274 | before the '*' the parser sums up what the sender sums up |
| LineSender.FramedLine | pysend.py:41-48 | a framed line is executed if and only if it has no format error and the number is its checksum; a sent line never gives a mismatch unless it has a format error and raster data |
| Printer.DecimalIsRead | strings.c:41-62 | reading the digits printed gives the number back |
| Printer.PrintUnsigned | strings.c:41-62 | digit by digit subtraction prints the decimal number without leading zeros |
| Printer.PrintNumber | strings.c:65-93 | fixed-point numbers are printed with their thousandths, except the most negative one |
| Numbers.ReadWord | parser.c:311-402 | a letter and a printed number: the parser stores that number and its whole part there, marks the letter as seen, and changes no other |
| Numbers.PrintAndRead | strings.c:65-93 | reading what was printed gives the number back, for every 32-bit number but the most negative one |
| Lengths.SqrtU64 | asm.c:56-74 | terminates without overflow with the floor of the root, for every 64-bit number |
| Lengths.NoOverflow | asm.c:64-72 | no intermediate sum of the root exceeds 64 bits |
| Lengths.Length2 | asm.c:77-81 | the floor of the Euclidean length of any two 32-bit coordinates |
| Lengths.RoundTrip | coordinates.c:7-30 | steps to micrometres and back is the identity if and only if the position is not negative, on all axes |
| Lengths.NearestMicrometre | coordinates.c:7-17 | steps are converted to the nearest micrometre, or the one above it for negative positions |
| Lengths.RelativeMovesAddUp | gcode.c:119-120 | relative moves add up exactly |
| Lengths.InchesAreCut | gcode.c:97-120 | a number of inches is 25.4 times as many millimetres, cut to whole micrometres |
| Lengths.LastAbsoluteCounts | gcode.c:105-149 | after any words, the destination is the last absolute one and the sum of the relative ones since |
| Gcode.State.GetCoordinates | gcode.c:105-149 | the destination follows the words and modes, and the target is the step next to it |
| Gcode.OneMoreWord | gcode.c:97-149 | a word counts in the unit and the mode set last before it, and only if its axis is named |
| Gcode.State.SetSpeed | gcode.c:266-270 | a positive feed rate is clamped to where every arc's timer value is in range |
| Gcode.State.Follow | gcode.c:105-149 | no drift: after any sequence of moves and mode changes the target is within half a step of the accumulated destination, one and a half below zero |
| Rendering.Erode | renderpicture.py:88-98 | both ends of what is kept are dark and everything outside is white |
| Rendering.RenderLine | renderpicture.py:88-126 | the pieces are true slices in order that begin dark; what is left out is white; more than 16 pixels are left out between pieces and no such stretch is left in one |
| Rendering.NothingIsLost | renderpicture.py:74-127 | every dark pixel is in a piece, with its value |
| Rendering.Renderer.Render | renderpicture.py:151-194 | the relative moves draw every piece at its own offset, in either direction |
| Rendering.DirectionDoesNotMatter | renderpicture.py:176-191 | drawn backwards with reversed pixels, each pixel lies in its own column |
| Rendering.PixelIsDrawn | renderpicture.py:74-194 | every dark pixel of the picture is drawn in its place, to the right or the left as its line is |
| Rendering.DirectionAlternates | renderpicture.py:154-194 | drawn both ways, a line goes forward exactly if the number of lines with something to draw before it is even |
| AvrFlags.IndexDecodes | avrtest/avrtest.c:473-484 | the one multiplication brings all four operand bits to where the tables expect them |
| AvrCpu.GenAddTable | avrtest/gen-flag-tables.c:123-141 | every entry of the generated table is the flag formula of its index |
| AvrCpu.GenSubTable | avrtest/gen-flag-tables.c:143-160 | the same for subtraction |
| AvrAlu.AddTable | avrtest/gen-flag-tables.c:125-141 | the entry looked up for an addition has the flags of the true sum |
| AvrAlu.SubTable | avrtest/gen-flag-tables.c:145-160 | the entry looked up for a subtraction has the flags of the true difference, half carry aside |
| AvrAlu.FlagsOfSum | avrtest/gen-flag-tables.c:123-141 | what the flags of an addition tell of the resulting byte: carry and overflow that it is not the sum, unsigned and signed, half carry that its low half is not that of the low halves |
| AvrAlu.FlagsOfDifference | avrtest/gen-flag-tables.c:143-160 | the same for a subtraction, half carry aside |
| AvrAlu.SubHalfCarry | avrtest/gen-flag-tables.c:145-160 | the half carry of a subtraction is the borrow if and only if bit 3 of the result is that of the minuend |
| AvrCpu.Cpu.DoAddition8 | avrtest/avrtest.c:564-574 | register and all flags of an addition with carry |
| AvrCpu.Cpu.DoSubtraction8 | avrtest/avrtest.c:589-600 | register and flags of a subtraction, Z kept low by an earlier non-zero byte |
| AvrAlu.AddChainAdds | avrtest/avrtest.c:840-858 | ADD and ADC over any number of bytes add the numbers, with C as the carry out |
| AvrAlu.SubChainSubtracts | avrtest/avrtest.c:949-963 | SUB and SBC over any number of bytes subtract them, with C, Z and S of the whole |
| AvrAlu.CompareChain | avrtest/avrtest.c:881-895 | CP and CPC: C if and only if less, Z if and only if equal, S if and only if less as signed numbers |
| AvrCpu.Cpu.AddWide | avrtest/avrtest.c:840-858 | the instructions on registers compute that addition and touch no others |
| AvrCpu.Cpu.SubWide | avrtest/avrtest.c:949-963 | the same for subtraction |
| AvrCpu.Cpu.CompareWide | avrtest/avrtest.c:881-895 | a comparison of registers says how they compare and changes none |

## Left out

- ArcDryRun.ExactMatch: the target is at least the root of 65 steps, a tenth of a millimetre, from the centre. Closer to it the two tracers come apart for longer, and some full circles fail (`ArcLimits.TinyCircleRunsOut`); which arcs do not is not decided.
- Machine.Machine.Push: "wait until there is room" is a list of interrupts. How long a search for the switches takes is up to the switches, so a call that waits for one is only promised to wait.
- Planner.PlannerState.PlanArc: the promise is for arcs with a start error in the window; Z does not move during an arc, as in the code, and follows as a move.
- Planner.PlannerState.Move: positions and targets are taken to be within 2^22 steps (some 50 metres) of the origin, so that differences fit the 24 bits of the counters.
- Planner.PlannerState.Line: for a move along neither X nor Y the timer value is a division by zero in the code and a constant here; so is it for the speed 0.
- Stepper.ArcTicks: at the centre of an arc the divisor is zero; a constant stands for the result.
- Stepper.Motor.HomeKernel: the reference switches are parameters, one reading a tick; the switch for simulation is off.
- Machine.Machine.Irq: an interrupt is one atomic step of the planner's view; that the ring allows this is what `RingProtocol` shows. Laser and motion halves of an interrupt are separate classes with the same job data.
- Parser.GcodeParser.NameChar: file names are text of any length; the code writes past its 16 bytes when one is longer.
- Parser.GcodeParser.ProcessChar: `process_command` is a record of the parsed line; writing to a full raster ring is left to `LaserPulses.Laser.Serve`, where deliveries wait for room. The debug build, which accepts raster data without a checksum, is not modelled.
- LineSender.Sender.SendLine: the port is the text written to it, replies are parameters; the resend after a reply that asks for one is not modelled.
- RasterData.EncodePixelData: bit depths from 1 to 8; the code's loop loses data for larger ones, for which the firmware has no name.
- Rendering.Renderer.Render: moves are in pixels; the conversion to millimetres with three decimals, the header and the footer of the file are not modelled.
- Gcode.State.GetCoordinates: X and Y; Z reads the number of X in the code. Destinations are unbounded integers.
- AvrCpu.Cpu.DoSubtraction8: says nothing of the half carry; `AvrAlu.SubHalfCarry` does.
- Clocks, pin and register writes, display, serial and USB stacks, settings store, SD card, logging and performance macros: hardware or compiled out.
- Arc centres from a radius word, G5, G7, dwell and the M codes: not part of the motion and raster core.
- The simulator's program loader, other instructions and call graph reports.
