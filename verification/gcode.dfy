// The coordinates and the feed rate of a command.
module Gcode {
  import opened Lengths
  import ArcAccuracy

  datatype Maybe = Nothing | Just(number: int)

  // The commands that bear on where a move goes.
  datatype Command = Inches(on: bool) | Relative(on: bool) | Go(x: Maybe, y: Maybe)

  // The words of one axis that are in force, each with the modes at the time.
  function AxisWords(inch: bool, relative: bool, always: bool, xAxis: bool, cs: seq<Command>): seq<Word>
    decreases |cs|
  {
    if cs == [] then []
    else match cs[0]
      case Inches(on) => AxisWords(on, relative, always, xAxis, cs[1..])
      case Relative(on) => AxisWords(inch, on, always, xAxis, cs[1..])
      case Go(x, y) =>
        var n := if xAxis then x else y;
        (if n.Just? then [Word(n.number, inch, relative || always)] else []) +
        AxisWords(inch, relative, always, xAxis, cs[1..])
  }

  // The modes that are in force after some commands: the last one counts.
  function InchAfter(inch: bool, cs: seq<Command>): bool {
    if cs == [] then inch
    else match cs[|cs| - 1]
      case Inches(on) => on
      case _ => InchAfter(inch, cs[..|cs| - 1])
  }

  function RelativeAfter(relative: bool, cs: seq<Command>): bool {
    if cs == [] then relative
    else match cs[|cs| - 1]
      case Relative(on) => on
      case _ => RelativeAfter(relative, cs[..|cs| - 1])
  }

  // A move adds its word, in the modes that are in force then; nothing else adds
  // any.
  lemma {:induction false} OneMoreWord(inch: bool, relative: bool, always: bool, xAxis: bool, cs: seq<Command>, c: Command)
    ensures AxisWords(inch, relative, always, xAxis, cs + [c]) == AxisWords(inch, relative, always, xAxis, cs) +
      if !c.Go? || (if xAxis then c.x else c.y).Nothing? then []
      else [Word((if xAxis then c.x else c.y).number, InchAfter(inch, cs), RelativeAfter(relative, cs) || always)]
    decreases |cs|
  {
    hide InchAfter, RelativeAfter;
    if cs == [] {
      NoModes(inch, relative);
      assert [c][1..] == [] && cs + [c] == [c];
    } else {
      assert (cs + [c])[0] == cs[0] && (cs + [c])[1..] == cs[1..] + [c];
      var inch', relative' := if cs[0].Inches? then cs[0].on else inch, if cs[0].Relative? then cs[0].on else relative;
      OneMoreWord(inch', relative', always, xAxis, cs[1..], c);
      ModesAfterFirst(inch, relative, cs);
    }
  }

  lemma NoModes(inch: bool, relative: bool)
    ensures InchAfter(inch, []) == inch && RelativeAfter(relative, []) == relative
  {}

  lemma {:induction false} ModesAfterFirst(inch: bool, relative: bool, cs: seq<Command>)
    requires cs != []
    ensures InchAfter(inch, cs) == InchAfter(if cs[0].Inches? then cs[0].on else inch, cs[1..])
    ensures RelativeAfter(relative, cs) == RelativeAfter(if cs[0].Relative? then cs[0].on else relative, cs[1..])
    decreases |cs|
  {
    if |cs| > 1 {
      var n := |cs| - 1;
      assert cs[1..][n - 1] == cs[n] && cs[1..][..n - 1] == cs[..n][1..];
      ModesAfterFirst(inch, relative, cs[..n]);
    }
  }

  // The step planned for a destination is near it.
  predicate Near(um: int, steps: int) {
    var off := steps * UM_PER_M - um * XY_STEPS_PER_M;
    -UM_PER_M / 2 <= off && if um >= 0 then off <= UM_PER_M / 2 else off < 3 * UM_PER_M / 2
  }

  class State {
    var coordsInInch: bool
    var relativeMode: bool
    var relativeX: bool
    var relativeY: bool
    var destinationX: int
    var destinationY: int
    var targetX: int
    var targetY: int
    var speed: int

    ghost predicate OnTarget()
      reads this
    {
      && targetX == PositionToSteps(destinationX, XY_STEPS_PER_M) && Near(destinationX, targetX)
      && targetY == PositionToSteps(destinationY, XY_STEPS_PER_M) && Near(destinationY, targetY)
    }

    method GetCoord(n: int) returns (um: int)
      ensures um == InMicrometres(Word(n, coordsInInch, false))
      ensures !coordsInInch ==> um == n
      ensures coordsInInch ==> if n >= 0 then 0 <= 127 * n - 5 * um < 5 else -5 < 127 * n - 5 * um <= 0
    {
      um := n;
      if coordsInInch {
        um := TruncDiv(127 * um, 5);
      }
    }

    method GetCoordinates(x: Maybe, y: Maybe)
      modifies this`destinationX, this`destinationY, this`targetX, this`targetY
      ensures OnTarget()
      ensures destinationX ==
        if x.Just? then Destination(old(destinationX), Word(x.number, coordsInInch, relativeX || relativeMode)) else old(destinationX)
      ensures destinationY ==
        if y.Just? then Destination(old(destinationY), Word(y.number, coordsInInch, relativeY || relativeMode)) else old(destinationY)
    {
      if x.Just? {
        var tmp := GetCoord(x.number);
        destinationX := if relativeX || relativeMode then destinationX + tmp else tmp;
      }
      if y.Just? {
        var tmp := GetCoord(y.number);
        destinationY := if relativeY || relativeMode then destinationY + tmp else tmp;
      }
      targetX := PositionToSteps(destinationX, XY_STEPS_PER_M);
      targetY := PositionToSteps(destinationY, XY_STEPS_PER_M);
      PlannedStepIsNear(destinationX);
      PlannedStepIsNear(destinationY);
    }

    // A feed rate; the clamp keeps the timer of every arc within its range.
    method SetSpeed(f: int)
      modifies this`speed
      ensures f <= 0 ==> speed == old(speed)
      ensures f > 0 ==> speed == ArcAccuracy.ClampedSpeed(f) && 2000 <= ArcAccuracy.ArcBaseTicks(speed) <= 40404
      ensures f > 0 ==> 5000 <= speed <= 100_984 && (5000 < speed < 100_984 ==> -30 < 60 * speed - f <= 30)
    {
      if f > 0 {
        ArcAccuracy.SpeedOfFeed(f);
        speed := ArcAccuracy.ClampedSpeed(f);
        ArcAccuracy.BaseTicksInRange(f);
      }
    }

    // No drift: after any sequence of moves, absolute or relative, in either
    // unit, the destination is what the words add up to, and the target is the
    // step next to it.
    method Follow(cs: seq<Command>)
      requires OnTarget()
      modifies this`coordsInInch, this`relativeMode, this`destinationX, this`destinationY, this`targetX, this`targetY
      ensures OnTarget()
      ensures destinationX ==
        Travel(old(destinationX), AxisWords(old(coordsInInch), old(relativeMode), relativeX, true, cs))
      ensures destinationY ==
        Travel(old(destinationY), AxisWords(old(coordsInInch), old(relativeMode), relativeY, false, cs))
      decreases |cs|
    {
      if cs == [] {
        return;
      }
      match cs[0] {
        case Inches(on) => coordsInInch := on;
        case Relative(on) => relativeMode := on;
        case Go(x, y) => GetCoordinates(x, y);
      }
      ghost var wx := AxisWords(coordsInInch, relativeMode, relativeX, true, cs[1..]);
      ghost var wy := AxisWords(coordsInInch, relativeMode, relativeY, false, cs[1..]);
      assert [] + wx == wx && [] + wy == wy;
      if cs[0].Go? {
        if cs[0].x.Just? { TravelOn(old(destinationX), Word(cs[0].x.number, coordsInInch, relativeMode || relativeX), wx); }
        if cs[0].y.Just? { TravelOn(old(destinationY), Word(cs[0].y.number, coordsInInch, relativeMode || relativeY), wy); }
      }
      Follow(cs[1..]);
    }
  }

  lemma TravelOn(from: int, w: Word, words: seq<Word>)
    ensures Travel(from, [w] + words) == Travel(Destination(from, w), words)
  {
    assert ([w] + words)[1..] == words;
  }

  lemma PlannedStepIsNear(um: int)
    ensures Near(um, PositionToSteps(um, XY_STEPS_PER_M))
  {
    var n := um * XY_STEPS_PER_M + UM_PER_M / 2;
    if n < 0 {
      assert -n == UM_PER_M * (-n / UM_PER_M) + -n % UM_PER_M;
    }
  }
}
