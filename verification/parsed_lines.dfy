// Whole lines and whole streams of characters, as the parser takes them.
module ParsedLines {
  import opened Bits
  import opened GcodeLine
  import opened Parser

  // The state after a text.
  function After(s: Line, t: string): (r: Line)
    requires ValidLine(s)
    ensures ValidLine(r)
    decreases |t|
  {
    if t == "" then s else After(Next(s, t[0]).0, t[1..])
  }

  lemma {:induction false} AfterConcat(s: Line, t: string, u: string)
    requires ValidLine(s)
    ensures After(s, t + u) == After(After(s, t), u)
    decreases |t|
  {
    if t == "" {
      assert t + u == u;
    } else {
      assert (t + u)[1..] == t[1..] + u;
      AfterConcat(Next(s, t[0]).0, t[1..], u);
    }
  }

  lemma AfterOne(s: Line, t: string, c: char)
    requires ValidLine(s)
    ensures After(s, t + [c]) == Next(After(s, t), c).0
  {
    AfterConcat(s, t, [c]);
    assert After(After(s, t), [c]) == After(Next(After(s, t), c).0, [c][1..]);
  }

  predicate OneLine(t: string) { '\n' !in t }

  // Within a line the parser does not start anew ...
  lemma {:induction false} StaysBegun(s: Line, t: string)
    requires ValidLine(s) && s.phase != Start && s.phase != BadChecksum && OneLine(t)
    ensures After(s, t).phase != Start && After(s, t).phase != BadChecksum
    decreases |t|
  {
    if t != "" {
      NextStaysBegun(s, t[0]);
      StaysBegun(Next(s, t[0]).0, t[1..]);
    }
  }

  lemma NextStaysBegun(s: Line, c: char)
    requires ValidLine(s) && s.phase != Start && s.phase != BadChecksum && c != '\n'
    ensures Next(s, c).0.phase != Start && Next(s, c).0.phase != BadChecksum
    ensures s.phase == Error ==> Next(s, c).0.phase == Error
  {}

  // ... and an error lasts until its end.
  lemma {:induction false} ErrorLasts(s: Line, t: string)
    requires ValidLine(s) && s.phase == Error && OneLine(t)
    ensures After(s, t).phase == Error
    decreases |t|
  {
    if t != "" {
      NextStaysBegun(s, t[0]);
      ErrorLasts(Next(s, t[0]).0, t[1..]);
    }
  }

  // A comment changes nothing but the checksum.
  lemma {:induction false} InsideComment(s: Line, t: string)
    requires ValidLine(s) && s.phase == Comment
    requires forall i :: 0 <= i < |t| ==> t[i] !in {')', '*', '\n'}
    ensures After(s, t) == s.(calcsum := After(s, t).calcsum)
    decreases |t|
  {
    if t != "" {
      assert Next(s, t[0]).0 == s.(calcsum := Next(s, t[0]).0.calcsum);
      InsideComment(Next(s, t[0]).0, t[1..]);
    }
  }

  lemma CommentIsIgnored(s: Line, t: string)
    requires ValidLine(s) && s.phase == Letter
    requires forall i :: 0 <= i < |t| ==> t[i] !in {')', '*', '\n'}
    ensures var e := After(s, "(" + t + ")"); e == s.(calcsum := e.calcsum)
  {
    CommentBegins(s);
    var begun := Next(s, '(').0;
    InsideComment(begun, t);
    CommentEnds(After(begun, t));
    assert After(s, "") == s;
    hide Next, After;
    assert "" + "(" == "(";
    AfterOne(s, "", '(');
    AfterConcat(s, "(", t);
    AfterOne(s, "(" + t, ')');
  }

  lemma CommentBegins(s: Line)
    requires ValidLine(s) && s.phase == Letter
    ensures var t := Next(s, '(').0; t == s.(phase := Comment, calcsum := t.calcsum)
  {}

  lemma CommentEnds(s: Line)
    requires ValidLine(s) && s.phase == Comment
    ensures var t := Next(s, ')').0; t == s.(phase := Letter, calcsum := t.calcsum)
  {}

  // What a line leaves to be judged at its end.
  function Parsed(line: string): Line { After(Fresh(), line) }

  predicate Executed(line: string) { EndReply(Parsed(line)) == Done }

  // The gate: a command is processed exactly if no character of its line led
  // into an error, and its checksum, if there is one, is right; raster data
  // are not accepted without one.
  lemma Gate(line: string)
    requires OneLine(line)
    ensures Executed(line) <==>
      && (forall i :: 0 <= i <= |line| ==> Parsed(line[..i]).phase != Error)
      && (if Parsed(line).sumChars != 0 then Parsed(line).transum == Parsed(line).calcsum else Parsed(line).len == 0)
  {
    hide Next;
    StaysBegun(Fresh(), line);
    assert line[..|line|] == line;
    if i :| 0 <= i <= |line| && Parsed(line[..i]).phase == Error {
      AfterConcat(Fresh(), line[..i], line[i..]);
      assert line[..i] + line[i..] == line;
      ErrorLasts(Parsed(line[..i]), line[i..]);
    }
  }

  // ---- Streams of lines ----

  ghost predicate AllLines(lines: seq<string>) { forall l :: l in lines ==> OneLine(l) }

  function CommandOf(line: string): seq<Line> { if Executed(line) then [Parsed(line)] else [] }
  function DataOf(line: string): seq<Byte> { if Executed(line) then RasterOf(Parsed(line)) else [] }

  // The lines of which commands are processed, as the parser has taken them
  // apart, and the raster data that are handed on.
  function Processed(lines: seq<string>): seq<Line> {
    if lines == [] then [] else CommandOf(lines[0]) + Processed(lines[1..])
  }

  function RasterBytes(lines: seq<string>): seq<Byte> {
    if lines == [] then [] else DataOf(lines[0]) + RasterBytes(lines[1..])
  }

  method ParseLine(p: GcodeParser, line: string)
    requires p.Idle() && OneLine(line)
    modifies p, p.numbers, p.integers, p.base64Bytes
    ensures p.Idle()
    ensures p.commands == old(p.commands) + CommandOf(line)
    ensures p.rasterData == old(p.rasterData) + DataOf(line)
  {
    for i := 0 to |line|
      invariant p.Valid() && Begun(p.State()) == Parsed(line[..i])
      invariant p.commands == old(p.commands) && p.rasterData == old(p.rasterData)
    {
      assert line[..i + 1] == line[..i] + [line[i]];
      AfterOne(Fresh(), line[..i], line[i]);
      StaysBegun(Fresh(), line[..i + 1]);
      ghost var s := p.State();
      var reply := p.ProcessChar(line[i]);
    }
    assert line[..|line|] == line;
    var reply := p.ProcessChar('\n');
  }

  // Whatever is sent, line by line: the parser processes the commands of
  // exactly the lines that pass the gate, in order, and hands on their raster
  // data.
  method ParseText(p: GcodeParser, lines: seq<string>)
    requires p.Idle() && AllLines(lines)
    modifies p, p.numbers, p.integers, p.base64Bytes
    ensures p.Idle()
    ensures p.commands == old(p.commands) + Processed(lines)
    ensures p.rasterData == old(p.rasterData) + RasterBytes(lines)
    decreases |lines|
  {
    ghost var commands, data := p.commands, p.rasterData;
    if lines == [] {
    } else {
      assert lines[0] in lines;
      ParseLine(p, lines[0]);
      Rest(lines);
      ParseText(p, lines[1..]);
      Joined(commands, CommandOf(lines[0]), Processed(lines[1..]));
      Joined(data, DataOf(lines[0]), RasterBytes(lines[1..]));
    }
  }

  lemma Rest(lines: seq<string>)
    requires lines != [] && AllLines(lines)
    ensures AllLines(lines[1..])
  {}

  lemma Joined<T>(a: seq<T>, b: seq<T>, c: seq<T>)
    ensures a + b + c == a + (b + c)
  {}
}
