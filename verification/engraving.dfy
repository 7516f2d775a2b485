// From the pixels of a picture to the pulses of the laser: packed, encoded,
// sent, parsed, queued and unpacked again.
module Engraving {
  import opened Arithmetic
  import opened Bits
  import opened Dda
  import opened GcodeLine
  import opened LaserPulses
  import opened LineSender
  import opened Motion
  import opened ParsedLines
  import opened Parser
  import opened RasterData
  import opened RasterLines
  import opened RasterPrefix
  import opened RasterSupply

  // The line that the sender makes of a text.
  function Sealed(t: string): string { Framed(t, XorOf(t)) }

  // The first of the texts goes on the line of the move, the others on lines
  // of their own.
  function SentLines(prefix: string, texts: seq<string>): seq<string>
    decreases |texts|
  {
    if texts == [] then [] else [Sealed(prefix + texts[0])] + SentLines("", texts[1..])
  }

  lemma {:induction false} SentLinesAreRead(prefix: string, chunks: seq<seq<Byte>>)
    requires Introduces(prefix) && Short(chunks)
    ensures AllLines(SentLines(prefix, Encoded(chunks)))
    ensures RasterBytes(SentLines(prefix, Encoded(chunks))) == Flatten(chunks)
    decreases |chunks|
  {
    EmptyPrefix();
    hide Introduces, Framed, XorOf, DataOf, OneLine, Base64.Encode, Parsed, Executed;
    if chunks != [] {
      var texts := Encoded(chunks);
      DataLineIsRead(prefix, chunks[0]);
      assert prefix + texts[0] == DataLine(prefix, chunks[0]);
      SentLinesAreRead("", chunks[1..]);
      assert texts[1..] == Encoded(chunks[1..]);
      var lines := SentLines(prefix, texts);
      assert lines == [Sealed(prefix + texts[0])] + SentLines("", texts[1..]);
      assert lines[1..] == SentLines("", texts[1..]);
    }
  }

  // When there were as many pulses as pixels, all have been shown, and there
  // is nothing left but zeros.
  lemma AllShown(shown: seq<nat>, pixels: seq<nat>, n: nat, bytes: seq<Byte>, fed: nat,
                 rest: nat, valid: nat, waiting: seq<Byte>, z: nat)
    requires n > 0 && fed <= |bytes| && z < 8 && |shown| == |pixels|
    requires AllFit(shown, n) && AllFit(pixels, n)
    requires ByteBits(bytes) == Groups(pixels, n) + Zeros(z)
    requires Groups(shown, n) + (ToBits(rest, valid) + ByteBits(waiting)) == ByteBits(bytes[..fed])
    ensures shown == pixels && waiting == [] && fed == |bytes|
    ensures ToBits(rest, valid) == Zeros(valid)
  {
    assert Groups([], n) == [];
    hide ToBits, ByteBits, Groups, AllFit;
    var a, b, more := ToBits(rest, valid), ByteBits(waiting), ByteBits(bytes[fed..]);
    Parts(bytes, fed);
    ByteBitsConcat(bytes[..fed], bytes[fed..]);
    Joined(Groups(shown, n), a + b, more);
    ValuesAreUnique(shown, pixels, n, a + b + more, Zeros(z));
    Parts(pixels, |shown|);
    OnlyZeros(a, b, more, z);
  }

  lemma Parts<T>(s: seq<T>, i: nat)
    requires i <= |s|
    ensures s == s[..i] + s[i..]
    ensures i == |s| ==> s[..i] == s && s[i..] == []
  {}

  lemma OnlyZeros(a: seq<bool>, b: seq<bool>, c: seq<bool>, z: nat)
    requires a + b + c == [] + Zeros(z)
    ensures a == Zeros(|a|) && |a| + |b| + |c| == z
  {
    forall i | 0 <= i < |a| ensures !a[i] {
      assert a[i] == (a + b + c)[i];
    }
    assert |a + b + c| == z;
  }

  function Order(pixels: seq<nat>, reverse: bool): seq<nat> { if reverse then Reversed(pixels) else pixels }

  // Pixels as bytes, filled up with zeros to the last one.
  ghost predicate Packed(data: seq<Byte>, pixels: seq<nat>, n: nat) {
    && 0 <= 8 * |data| - n * |pixels| < 8
    && ByteBits(data) == Groups(pixels, n) + Zeros(8 * |data| - n * |pixels|)
  }

  lemma PackedOf(bytes: seq<Byte>, pixels: seq<nat>, reverse: bool, n: nat)
    requires var order := if reverse then Reversed(pixels) else pixels;
      0 <= 8 * |bytes| - n * |order| < 8 && ByteBits(bytes) == Groups(order, n) + Zeros(8 * |bytes| - n * |order|)
    ensures Packed(bytes, Order(pixels, reverse), n)
  {}

  // The host's part, and what the parser hands on of it.
  method Transmit(p: GcodeParser, pixels: seq<nat>, reverse: bool, bpp: nat, prefix: string)
    returns (data: seq<Byte>)
    requires p.Idle() && 1 <= bpp <= 8 && Introduces(prefix)
    modifies p, p.numbers, p.integers, p.base64Bytes
    ensures p.Idle()
    ensures p.rasterData == old(p.rasterData) + data && Packed(data, Order(pixels, reverse), bpp)
  {
    hide SentLines, Encoded, Chunked, Introduces, RasterBytes, Packed, Order, Flatten, Short, AllLines, Groups, ByteBits;
    ghost var bytes;
    var texts;
    texts, bytes := EncodePixelData(pixels, reverse, bpp);
    PackedOf(bytes, pixels, reverse, bpp);
    ChunksJoin(bytes);
    SentLinesAreRead(prefix, Chunked(bytes));
    data := Relay(p, SentLines(prefix, texts), bytes);
  }

  // What the parser hands on of some lines.
  method Relay(p: GcodeParser, lines: seq<string>, ghost bytes: seq<Byte>) returns (data: seq<Byte>)
    requires p.Idle() && AllLines(lines) && RasterBytes(lines) == bytes
    modifies p, p.numbers, p.integers, p.base64Bytes
    ensures p.Idle() && data == bytes && p.rasterData == old(p.rasterData) + bytes
  {
    hide AllLines, RasterBytes, Processed;
    ghost var before := p.rasterData;
    var sent := |p.rasterData|;
    ParseText(p, lines);
    Appended(before, bytes);
    data := p.rasterData[sent..];
  }

  lemma Appended<T>(a: seq<T>, b: seq<T>)
    ensures (a + b)[|a|..] == b
  {}

  // A job of raster data: one pulse a pixel, and a whole job's ticks.
  ghost predicate RasterJob(options: LaserOptions, pixels: seq<nat>, total: nat, events: seq<Event>) {
    && ValidOptions(options) && options.mode.modulated && AllFit(pixels, options.modulation + 1)
    && options.steps == |pixels| <= total < WIDTH && 0 < total && Ticks(events) == total
  }

  // Nothing is left over from another one.
  ghost predicate Blank(l: Laser)
    reads l, l.raster, l.raster.data
  {
    l.Valid() && l.modbits == 0 && l.raster.Contents() == []
  }

  // No pulse is late, or lost because it is the only one of a job of one tick.
  predicate InTime(options: LaserOptions, total: nat, events: seq<Event>)
    requires ValidOptions(options)
  {
    var n := options.modulation + 1;
    && !LonePulse(options, total)
    && !Late(events, Progress(StartCounter(options.mode, total), 0, 0), Job(options.steps, total, n, Needed(options.steps, n)))
  }

  // A delivery before every tick is enough, at any depth.
  lemma PromptIsInTime(options: LaserOptions, total: nat, events: seq<Event>)
    requires ValidOptions(options) && options.steps <= total < WIDTH && Ticks(events) == total
    requires Alternating(events, false) && !LonePulse(options, total)
    ensures InTime(options, total, events)
  {
    var n := options.modulation + 1;
    PulsesOfJob(options.mode, options.steps, total);
    hide CarrySteps, StartCounter, Ticks, Late, Alternating;
    OneByteATickIsEnough(events, false, Progress(StartCounter(options.mode, total), 0, 0),
      Job(options.steps, total, n, Needed(options.steps, n)));
  }

  // The job of a raster line, with the parser's deliveries and the ticks of the
  // timer interleaved in any way.  In time, all its bytes are delivered and
  // fetched; otherwise some are not.
  method Show(l: Laser, data: seq<Byte>, ghost pixels: seq<nat>, options: LaserOptions, total: nat, events: seq<Event>)
    returns (fed: nat)
    requires Blank(l) && RasterJob(options, pixels, total, events) && Packed(data, pixels, options.modulation + 1)
    modifies l, l.raster, l.raster.data
    ensures l.Valid() && fed <= |data|
    ensures InTime(options, total, events) ==> l.shown == pixels && Blank(l) && fed == |data|
    ensures !InTime(options, total, events) ==> l.raster.Contents() != [] || fed < |data|
  {
    hide RasterJob, Packed, InTime, Late, AllFit, Ticks, CarrySteps, StartCounter, Needed, BitsLeft;
    hide LaserPulses.Holds, Laser.Stream, Laser.Pending, Blank;
    JobOfLine(options, pixels, total, events, data);
    Prepare(l, options, total);
    fed := l.Serve(data, events);
    if InTime(options, total, events) {
      ShownWhole(l, data, pixels, fed);
    }
  }

  predicate LonePulse(options: LaserOptions, total: nat) {
    options.mode.pulsed && total == 1 && options.steps == 1
  }

  // What is to be known of the job.
  lemma JobOfLine(options: LaserOptions, pixels: seq<nat>, total: nat, events: seq<Event>, data: seq<Byte>)
    requires RasterJob(options, pixels, total, events) && Packed(data, pixels, options.modulation + 1)
    ensures ValidOptions(options) && options.mode.modulated && options.steps == |pixels|
    ensures var n := options.modulation + 1;
      && AllFit(pixels, n) && |data| == Needed(|pixels|, n) && Needed(0, n) == 0
      && CarrySteps(StartCounter(options.mode, total), options.steps, total, Ticks(events)) ==
           (if LonePulse(options, total) then 0 else options.steps)
      && (LonePulse(options, total) ==> |data| == 1)
      && InTime(options, total, events) == (!LonePulse(options, total) &&
           !Late(events, Progress(StartCounter(options.mode, total), 0, 0), Job(options.steps, total, n, |data|)))
  {
    hide CarrySteps, StartCounter, Late, Ticks, Needed, Packed, AllFit;
    PulsesOfJob(options.mode, options.steps, total);
    PackedBytes(data, pixels, options.modulation + 1);
    NeededForNone(options.modulation + 1);
  }

  lemma PackedBytes(data: seq<Byte>, pixels: seq<nat>, n: nat)
    requires Packed(data, pixels, n)
    ensures |data| == Needed(|pixels|, n)
  {}

  lemma NeededForNone(n: nat)
    requires 1 <= n <= 8
    ensures Needed(0, n) == 0 && Needed(1, n) == 1
  {}

  // The new job finds no bits waiting.
  method Prepare(l: Laser, options: LaserOptions, total: nat)
    requires Blank(l) && ValidOptions(options)
    modifies l
    ensures l.Valid() && l.Clean() && l.shown == [] && l.validBits == 0 && l.Pending() == [] && l.raster.Contents() == []
    ensures options.mode.modulated ==> l.Serving()
    ensures l.masked == (options.mode != LASER_MODE_OFF)
    ensures options.mode != LASER_MODE_OFF ==> l.modulation == options.modulation && l.steps == options.steps
    ensures l.mode == options.mode && l.total == total && l.ctr == StartCounter(options.mode, total)
  {
    assert ByteBits([]) == [];
    hide ByteBits, StartCounter;
    l.Load(options, total);
  }

  // All that came was the pixels, and they are shown: nothing is left over.
  lemma ShownWhole(l: Laser, data: seq<Byte>, pixels: seq<nat>, fed: nat)
    requires l.Valid() && l.Clean() && fed <= |data| && |l.shown| == |pixels|
    requires AllFit(l.shown, l.Depth()) && AllFit(pixels, l.Depth()) && Packed(data, pixels, l.Depth())
    requires l.Stream() == [] + ByteBits(data[..fed])
    ensures l.shown == pixels && Blank(l) && fed == |data|
  {
    var z := 8 * |data| - l.Depth() * |pixels|;
    hide Groups, ByteBits, AllFit, LaserPulses.Holds;
    AllShown(l.shown, pixels, l.Depth(), data, fed, l.rest, l.validBits, l.raster.Contents(), z);
    if l.validBits > 0 {
      ZerosLeft(l.modbits, l.validBits, l.rest);
    }
  }

  // A whole raster line: the laser shows exactly the pixels, in order, and is
  // ready for the next line, if no byte is late.  If one is, the line ends before
  // its data do.
  method Engrave(p: GcodeParser, l: Laser, pixels: seq<nat>, reverse: bool, prefix: string,
                 options: LaserOptions, total: nat, events: seq<Event>) returns (data: seq<Byte>, fed: nat)
    requires p.Idle() && Introduces(prefix) && p.base64Bytes != l.raster.data
    requires Blank(l) && RasterJob(options, pixels, total, events)
    modifies p, p.numbers, p.integers, p.base64Bytes, l, l.raster, l.raster.data
    ensures p.Idle() && l.Valid() && Packed(data, Order(pixels, reverse), options.modulation + 1) && fed <= |data|
    ensures InTime(options, total, events) ==> l.shown == Order(pixels, reverse) && Blank(l) && fed == |data|
    ensures !InTime(options, total, events) ==> l.raster.Contents() != [] || fed < |data|
  {
    OrderSuits(options, pixels, reverse, total, events);
    hide Packed, Order, Introduces, RasterJob, InTime;
    data := Transmit(p, pixels, reverse, options.modulation + 1, prefix);
    fed := Show(l, data, Order(pixels, reverse), options, total, events);
  }

  lemma OrderSuits(options: LaserOptions, pixels: seq<nat>, reverse: bool, total: nat, events: seq<Event>)
    requires RasterJob(options, pixels, total, events)
    ensures RasterJob(options, Order(pixels, reverse), total, events)
    ensures 0 <= options.modulation < 8
  {}

  // In a whole job the laser fires as often as it is to, if and only if there
  // are ticks enough, and not just one for a pulse.
  lemma PulsesOfJob(mode: LaserMode, steps: nat, total: nat)
    requires steps < WIDTH && total < WIDTH
    ensures CarrySteps(StartCounter(mode, total), steps, total, total) == steps <==>
      steps <= total && !(mode.pulsed && total == 1 && steps == 1)
    ensures mode.pulsed && total == 1 ==> CarrySteps(StartCounter(mode, total), steps, total, total) == 0 || steps > 1
  {
    if total < steps || total == 0 {
      AtMostOneATick(StartCounter(mode, total), steps, total, total);
    } else if mode.pulsed {
      CarryExact(steps, total);
    } else {
      CarryExactFromMinusOne(steps, total);
    }
  }

  lemma {:induction false} AtMostOneATick(ctr: int, add: int, sub: int, n: nat)
    ensures CarrySteps(ctr, add, sub, n) <= n
    decreases n
  {
    if n > 0 {
      AtMostOneATick(AdvanceCarry(ctr, add, sub).0, add, sub, n - 1);
    }
  }
}
