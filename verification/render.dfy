// How a picture becomes moves: each line is cut into pieces at its long white
// stretches, and the pieces are drawn with relative moves.
module Rendering {
  import opened RasterData

  const MIN_WHITE_SKIP := 16

  // The pixels of a line from an offset on.
  datatype Piece = Piece(start: nat, pixels: seq<nat>)

  function End(p: Piece): nat { p.start + |p.pixels| }

  ghost predicate White(line: seq<nat>, level: nat, from: int, to: int) {
    forall x :: 0 <= from <= x < to <= |line| ==> line[x] < level
  }

  // A slice of the line at its true offset, beginning with a pixel to be drawn.
  ghost predicate TrueTo(line: seq<nat>, level: nat, p: Piece) {
    p.pixels != [] && End(p) <= |line| && p.pixels == line[p.start..End(p)] && p.pixels[0] >= level
  }

  // Not only white from this pixel on, as far as would be left out.
  ghost predicate Dark(line: seq<nat>, level: nat, from: nat) {
    exists x: nat :: from <= x <= from + MIN_WHITE_SKIP && x < |line| && line[x] >= level
  }

  // A piece has no white stretch that should have been left out.
  ghost predicate Solid(line: seq<nat>, level: nat, p: Piece) {
    forall a: nat :: p.start <= a && a + MIN_WHITE_SKIP < End(p) ==> Dark(line, level, a)
  }

  // Pieces in order, with more than so many white pixels left out in between.
  ghost predicate Cut(line: seq<nat>, level: nat, pieces: seq<Piece>) {
    && (forall k :: 0 <= k < |pieces| ==> TrueTo(line, level, pieces[k]) && Solid(line, level, pieces[k]))
    && (forall k :: 0 < k < |pieces| ==>
          End(pieces[k - 1]) + MIN_WHITE_SKIP < pieces[k].start && White(line, level, End(pieces[k - 1]), pieces[k].start))
    && (pieces != [] ==> White(line, level, 0, pieces[0].start))
  }

  // Where the first n pieces end.
  function Reached(pieces: seq<Piece>): nat { if pieces == [] then 0 else End(pieces[|pieces| - 1]) }

  // All that is left out is white.
  ghost predicate Complete(line: seq<nat>, level: nat, pieces: seq<Piece>) {
    Cut(line, level, pieces) && White(line, level, Reached(pieces), |line|)
  }

  // Remove white pixels from left and right.
  method Erode(line: seq<nat>, level: nat) returns (startx: int, endx: int)
    requires line != []
    ensures 0 <= startx && endx < |line|
    ensures startx <= endx ==> line[startx] >= level && line[endx] >= level
    ensures startx <= endx ==> White(line, level, 0, startx) && White(line, level, endx + 1, |line|)
    ensures startx > endx ==> White(line, level, 0, |line|)
  {
    startx, endx := 0, |line| - 1;
    while line[startx] < level
      invariant 0 <= startx < |line| && White(line, level, 0, startx)
      decreases |line| - startx
    {
      startx := startx + 1;
      if startx > endx {
        break;
      }
    }
    while line[endx] < level
      invariant 0 <= endx < |line| && White(line, level, endx + 1, |line|)
      invariant startx <= endx ==> line[startx] >= level
      invariant startx > endx ==> endx == |line| - 1
      decreases endx
    {
      endx := endx - 1;
      if startx > endx {
        break;
      }
    }
  }

  // One line of the picture.
  method RenderLine(line: seq<nat>, level: nat) returns (pieces: seq<Piece>)
    requires line != []
    ensures Complete(line, level, pieces)
  {
    var startx, endx := Erode(line, level);
    pieces := [];
    if startx > endx {
      return;
    }
    var i := startx;
    assert Cut(line, level, []) && Reached([]) == 0;
    hide White, Cut, TrueTo, Reached, Dark;
    while true
      invariant 0 <= startx <= i <= endx < |line| && line[endx] >= level
      invariant line[startx] >= level && (i == startx ==> pieces == [])
      invariant White(line, level, endx + 1, |line|)
      invariant Cut(line, level, pieces) && Reached(pieces) <= startx
      invariant White(line, level, Reached(pieces), startx)
      invariant pieces != [] ==> Reached(pieces) + MIN_WHITE_SKIP < startx
      invariant forall a :: startx <= a < i ==> Dark(line, level, a)
      decreases endx - i
    {
      i := NextWhite(line, level, i, endx);
      var j := EndOfWhite(line, level, i, endx);
      StaysDark(line, level, i, j);
      if j - i > MIN_WHITE_SKIP {
        pieces := AddPiece(line, level, pieces, startx, i);
        startx := j;
        i := j;
        StaysDark(line, level, j, j);
      }
      if j < endx {
        i := i + 1;
        continue;
      }
      break;
    }
    LastStretch(line, level, startx, i, endx);
    pieces := AddPiece(line, level, pieces, startx, endx + 1);
  }

  // A stretch that ends soon enough.
  lemma StaysDark(line: seq<nat>, level: nat, i: int, j: int)
    requires 0 <= i <= j
    ensures j < |line| && line[j] >= level && j - i <= MIN_WHITE_SKIP ==> Dark(line, level, i)
  {}

  lemma LastStretch(line: seq<nat>, level: nat, startx: int, i: int, endx: int)
    requires 0 <= startx <= i <= endx < |line| && line[endx] >= level
    requires forall a :: startx <= a < i ==> Dark(line, level, a)
    requires endx - i <= MIN_WHITE_SKIP
    ensures forall a: nat :: startx <= a && a + MIN_WHITE_SKIP < endx + 1 ==> Dark(line, level, a)
  {
    forall a: nat | startx <= a && a + MIN_WHITE_SKIP < endx + 1 ensures Dark(line, level, a) {
      if a >= i { StaysDark(line, level, a, endx); }
    }
  }

  method AddPiece(line: seq<nat>, level: nat, pieces: seq<Piece>, startx: int, end: int) returns (more: seq<Piece>)
    requires 0 <= startx < end <= |line| && line[startx] >= level
    requires Cut(line, level, pieces) && White(line, level, Reached(pieces), startx)
    requires pieces != [] ==> Reached(pieces) + MIN_WHITE_SKIP < startx
    requires forall a: nat :: startx <= a && a + MIN_WHITE_SKIP < end ==> Dark(line, level, a)
    ensures more != [] && Cut(line, level, more) && Reached(more) == end
  {
    Extend(line, level, pieces, startx, end);
    more := pieces + [Piece(startx, line[startx..end])];
  }

  method NextWhite(line: seq<nat>, level: nat, from: int, endx: int) returns (i: int)
    requires 0 <= from <= endx < |line|
    ensures from <= i <= endx
    ensures line[from] >= level && from < endx ==> from < i
    ensures i < endx ==> line[i] < level
    ensures forall a :: from <= a < i ==> Dark(line, level, a)
  {
    i := from;
    while i < endx && line[i] >= level
      invariant from <= i <= endx
      invariant forall a :: from <= a < i ==> Dark(line, level, a)
      invariant i == from || from < i
    {
      i := i + 1;
    }
  }

  method EndOfWhite(line: seq<nat>, level: nat, i: int, endx: int) returns (j: int)
    requires 0 <= i <= endx < |line| && (i < endx ==> line[i] < level) && line[endx] >= level
    ensures i < j && (i < endx ==> j <= endx && line[j] >= level && White(line, level, i, j))
    ensures i == endx ==> j == endx + 1
  {
    j := i + 1;
    while j < endx && line[j] < level
      invariant i < j && (i < endx ==> j <= endx) && (i == endx ==> j == endx + 1)
      invariant i < endx ==> White(line, level, i, j)
    {
      j := j + 1;
    }
  }

  lemma Extend(line: seq<nat>, level: nat, pieces: seq<Piece>, startx: int, end: int)
    requires 0 <= startx < end <= |line| && line[startx] >= level
    requires Cut(line, level, pieces) && White(line, level, Reached(pieces), startx)
    requires pieces != [] ==> Reached(pieces) + MIN_WHITE_SKIP < startx
    requires forall a: nat :: startx <= a && a + MIN_WHITE_SKIP < end ==> Dark(line, level, a)
    ensures Cut(line, level, pieces + [Piece(startx, line[startx..end])])
  {
    var p := Piece(startx, line[startx..end]);
    var more := pieces + [p];
    assert TrueTo(line, level, p) && Solid(line, level, p);
    hide White, TrueTo, Solid;
    forall k | 0 <= k < |more| ensures TrueTo(line, level, more[k]) && Solid(line, level, more[k]) {
      assert more[k] == if k < |pieces| then pieces[k] else p;
    }
    forall k | 0 < k < |more|
      ensures End(more[k - 1]) + MIN_WHITE_SKIP < more[k].start && White(line, level, End(more[k - 1]), more[k].start)
    {
      assert more[k - 1] == pieces[k - 1];
      assert more[k] == if k < |pieces| then pieces[k] else p;
    }
  }

  // Every pixel to be drawn is in one of the pieces, with its value.
  lemma NothingIsLost(line: seq<nat>, level: nat, pieces: seq<Piece>, x: nat) returns (k: nat)
    requires Complete(line, level, pieces)
    requires x < |line| && line[x] >= level
    ensures k < |pieces| && pieces[k].start <= x < End(pieces[k]) && pieces[k].pixels[x - pieces[k].start] == line[x]
  {
    assert pieces != [];
    k := 0;
    while k < |pieces| && End(pieces[k]) <= x
      invariant k <= |pieces| && (k > 0 ==> End(pieces[k - 1]) <= x)
      decreases |pieces| - k
    {
      k := k + 1;
    }
    assert k < |pieces|;
    assert x >= pieces[k].start;
    assert TrueTo(line, level, pieces[k]);
  }

  // ---- Moves ----

  // Relative moves in units of pixels; a raster move carries its pixels in the
  // order in which they are sent.
  datatype Move = Go(dx: int, dy: int) | Raster(dx: int, pixels: seq<nat>)

  // What is drawn: pixels from a place to the right or to the left.
  datatype Stroke = Stroke(x: int, y: int, dx: int, pixels: seq<nat>)

  function Drawn(x: int, y: int, moves: seq<Move>): seq<Stroke>
    decreases |moves|
  {
    if moves == [] then []
    else match moves[0]
      case Go(dx, dy) => Drawn(x + dx, y + dy, moves[1..])
      case Raster(dx, pixels) => [Stroke(x, y, dx, pixels)] + Drawn(x + dx, y, moves[1..])
  }

  // Where the moves lead.
  function Place(x: int, y: int, moves: seq<Move>): (int, int)
    decreases |moves|
  {
    if moves == [] then (x, y)
    else match moves[0]
      case Go(dx, dy) => Place(x + dx, y + dy, moves[1..])
      case Raster(dx, pixels) => Place(x + dx, y, moves[1..])
  }

  lemma {:induction false} DrawnConcat(x: int, y: int, a: seq<Move>, b: seq<Move>)
    ensures var p := Place(x, y, a);
      && Drawn(x, y, a + b) == Drawn(x, y, a) + Drawn(p.0, p.1, b)
      && Place(x, y, a + b) == Place(p.0, p.1, b)
    decreases |a|
  {
    if a == [] {
      assert a + b == b;
    } else {
      assert (a + b)[1..] == a[1..] + b;
      match a[0]
      case Go(dx, dy) => DrawnConcat(x + dx, y + dy, a[1..], b);
      case Raster(dx, pixels) => DrawnConcat(x + dx, y, a[1..], b);
    }
  }

  // How a piece is to be drawn: where it is, in either direction.
  function StrokeOf(p: Piece, y: int, forward: bool): Stroke {
    if forward then Stroke(p.start, y, |p.pixels|, p.pixels) else Stroke(End(p), y, -|p.pixels|, Reversed(p.pixels))
  }

  // The pieces of a line, from the right when that is the direction.
  function Sorted(pieces: seq<Piece>, forward: bool): seq<Piece> { if forward then pieces else Reversed(pieces) }

  function StrokesOf(pieces: seq<Piece>, y: int, forward: bool): seq<Stroke> {
    if pieces == [] then [] else StrokesOf(pieces[..|pieces| - 1], y, forward) + [StrokeOf(pieces[|pieces| - 1], y, forward)]
  }

  // The direction changes after every line that has anything to be drawn, when
  // both directions are used.
  function Forward(lines: seq<seq<Piece>>, bidir: bool): bool {
    if lines == [] then true
    else
      var before := Forward(lines[..|lines| - 1], bidir);
      if bidir && lines[|lines| - 1] != [] then !before else before
  }

  function Filled(lines: seq<seq<Piece>>): nat {
    if lines == [] then 0 else Filled(lines[..|lines| - 1]) + if lines[|lines| - 1] != [] then 1 else 0
  }

  // Every other line that has anything to be drawn goes backwards.
  lemma {:induction false} DirectionAlternates(lines: seq<seq<Piece>>, bidir: bool)
    ensures Forward(lines, bidir) == (!bidir || Filled(lines) % 2 == 0)
  {
    if lines != [] {
      DirectionAlternates(lines[..|lines| - 1], bidir);
    }
  }

  function Picture(lines: seq<seq<Piece>>, bidir: bool): seq<Stroke> {
    if lines == [] then []
    else
      var n := |lines| - 1;
      var forward := Forward(lines[..n], bidir);
      Picture(lines[..n], bidir) + StrokesOf(Sorted(lines[n], forward), n, forward)
  }

  class Renderer {
    var lastx: int
    var lasty: int
    var moves: seq<Move>

    // The head is where the bookkeeping has it, and has drawn the strokes.
    ghost predicate Drew(strokes: seq<Stroke>)
      reads this
    {
      Place(0, 0, moves) == (lastx, lasty) && Drawn(0, 0, moves) == strokes
    }

    constructor ()
      ensures Drew([])
    {
      lastx, lasty, moves := 0, 0, [];
    }

    method DrawPiece(p: Piece, y: int, forward: bool, ghost before: seq<Stroke>)
      requires Drew(before)
      modifies this
      ensures Drew(before + [StrokeOf(p, y, forward)])
    {
      var startx, length := p.start as int, |p.pixels|;
      if !forward {
        startx := startx + length;
      }
      var dx := if forward then length else -length;
      var pixels := if forward then p.pixels else Reversed(p.pixels);
      PieceDrawn(lastx, lasty, Go(startx - lastx, y - lasty), dx, pixels);
      DrawnConcat(0, 0, moves, [Go(startx - lastx, y - lasty), Raster(dx, pixels)]);
      moves := moves + [Go(startx - lastx, y - lasty), Raster(dx, pixels)];
      lastx := startx + dx;
      lasty := y;
    }

    method DrawLine(line: seq<Piece>, y: int, forward: bool, ghost before: seq<Stroke>)
      requires Drew(before)
      modifies this
      ensures Drew(before + StrokesOf(Sorted(line, forward), y, forward))
    {
      var pieces := Sorted(line, forward);
      assert pieces[..0] == [] && before + [] == before;
      for i := 0 to |pieces|
        invariant Drew(before + StrokesOf(pieces[..i], y, forward))
      {
        OneMoreStroke(pieces, i, y, forward, before);
        DrawPiece(pieces[i], y, forward, before + StrokesOf(pieces[..i], y, forward));
      }
      assert pieces[..|pieces|] == pieces;
    }

    // Relative moves, but every piece is drawn at its own place.
    method Render(data: seq<seq<Piece>>, bidir: bool)
      requires Drew([])
      modifies this
      ensures Drew(Picture(data, bidir))
    {
      var forward := true;
      for y := 0 to |data|
        invariant forward == Forward(data[..y], bidir)
        invariant Drew(Picture(data[..y], bidir))
      {
        assert data[..y + 1][..y] == data[..y];
        if data[y] != [] {
          DrawLine(data[y], y, forward, Picture(data[..y], bidir));
          if bidir {
            forward := !forward;
          }
        } else {
          assert Sorted(data[y], forward) == [];
          assert Picture(data[..y], bidir) + [] == Picture(data[..y], bidir);
        }
      }
      assert data[..|data|] == data;
    }
  }

  lemma PieceDrawn(x: int, y: int, go: Move, dx: int, pixels: seq<nat>)
    requires go.Go?
    ensures var two := [go, Raster(dx, pixels)];
      && Drawn(x, y, two) == [Stroke(x + go.dx, y + go.dy, dx, pixels)]
      && Place(x, y, two) == (x + go.dx + dx, y + go.dy)
  {
    var two := [go, Raster(dx, pixels)];
    var (x', y') := (x + go.dx, y + go.dy);
    assert two[1..] == [Raster(dx, pixels)] && two[1..][1..] == [];
    assert Drawn(x', y', two[1..]) == [Stroke(x', y', dx, pixels)] + Drawn(x' + dx, y', []);
    assert Place(x', y', two[1..]) == Place(x' + dx, y', []);
  }

  lemma OneMoreStroke(pieces: seq<Piece>, i: nat, y: int, forward: bool, before: seq<Stroke>)
    requires i < |pieces|
    ensures before + StrokesOf(pieces[..i + 1], y, forward) ==
      before + StrokesOf(pieces[..i], y, forward) + [StrokeOf(pieces[i], y, forward)]
  {
    assert pieces[..i + 1][..i] == pieces[..i];
  }

  // The pixel that a stroke leaves in a column, if it passes it.
  predicate Passes(s: Stroke, x: int) { if s.dx >= 0 then s.x <= x < s.x + s.dx else s.x + s.dx <= x < s.x }

  function Shade(s: Stroke, x: int): nat
    requires Passes(s, x) && |s.pixels| == if s.dx >= 0 then s.dx else -s.dx
  {
    if s.dx >= 0 then s.pixels[x - s.x] else s.pixels[s.x - 1 - x]
  }

  // In either direction, each pixel of a piece comes to lie in its own column.
  lemma DirectionDoesNotMatter(p: Piece, y: int, x: int)
    ensures Passes(StrokeOf(p, y, true), x) <==> p.start <= x < End(p)
    ensures Passes(StrokeOf(p, y, false), x) <==> p.start <= x < End(p)
    ensures p.start <= x < End(p) ==>
      Shade(StrokeOf(p, y, true), x) == Shade(StrokeOf(p, y, false), x) == p.pixels[x - p.start]
  {
    if p.start <= x < End(p) {
      var i := End(p) - 1 - x;
      assert Reversed(p.pixels)[i] == p.pixels[|p.pixels| - 1 - i];
    }
  }

  lemma {:induction false} StrokeIsThere(pieces: seq<Piece>, k: nat, y: int, forward: bool)
    requires k < |pieces|
    ensures StrokeOf(pieces[k], y, forward) in StrokesOf(pieces, y, forward)
  {
    var n := |pieces| - 1;
    if k < n {
      StrokeIsThere(pieces[..n], k, y, forward);
      assert pieces[..n][k] == pieces[k];
    }
  }

  lemma PictureOf(lines: seq<seq<Piece>>, bidir: bool)
    requires lines != []
    ensures var n := |lines| - 1;
      var forward := Forward(lines[..n], bidir);
      Picture(lines, bidir) == Picture(lines[..n], bidir) + StrokesOf(Sorted(lines[n], forward), n, forward)
  {}

  lemma {:induction false} LineIsThere(lines: seq<seq<Piece>>, y: nat, bidir: bool, s: Stroke)
    requires y < |lines|
    requires var forward := Forward(lines[..y], bidir); s in StrokesOf(Sorted(lines[y], forward), y, forward)
    ensures s in Picture(lines, bidir)
  {
    hide Picture, StrokesOf, Forward, Sorted;
    var n := |lines| - 1;
    PictureOf(lines, bidir);
    if y == n {
      assert lines[..n] == lines[..y] && lines[n] == lines[y];
    } else {
      assert lines[..n][..y] == lines[..y] && lines[..n][y] == lines[y];
      LineIsThere(lines[..n], y, bidir, s);
    }
  }

  // Cut, reversed and drawn with relative moves, every pixel of the picture
  // that is not white enough to be left out appears in its place.
  lemma PixelIsDrawn(image: seq<seq<nat>>, level: nat, lines: seq<seq<Piece>>, bidir: bool, x: nat, y: nat) returns (s: Stroke)
    requires |lines| == |image| && y < |image|
    requires Complete(image[y], level, lines[y])
    requires x < |image[y]| && image[y][x] >= level
    ensures s in Picture(lines, bidir) && s.y == y && Passes(s, x)
    ensures |s.pixels| == (if s.dx >= 0 then s.dx else -s.dx) && Shade(s, x) == image[y][x]
    ensures s.dx > 0 <==> !bidir || Filled(lines[..y]) % 2 == 0
  {
    hide Picture, StrokesOf, Forward;
    var k := NothingIsLost(image[y], level, lines[y], x);
    hide Complete;
    var forward := Forward(lines[..y], bidir);
    var p := lines[y][k];
    s := StrokeOf(p, y, forward);
    var at := if forward then k else |lines[y]| - 1 - k;
    assert Sorted(lines[y], forward)[at] == p;
    StrokeIsThere(Sorted(lines[y], forward), at, y, forward);
    LineIsThere(lines, y, bidir, s);
    DirectionDoesNotMatter(p, y, x);
    DirectionAlternates(lines[..y], bidir);
  }
}
