// Raster data on the line: base64 text that the parser turns back into bytes.
module RasterLines {
  import opened Arithmetic
  import opened Base64
  import opened Bits
  import opened GcodeLine
  import opened LineSender
  import opened ParsedLines
  import opened Printer

  // The parser has got these bytes of the current line ...
  ghost predicate Got(s: Line, data: seq<Byte>) {
    ValidLine(s) && s.len == |data| < MAX_BYTES && s.bytes[..s.len] == data
  }

  // ... and the upper bits of another one.
  ghost predicate GotPart(s: Line, data: seq<Byte>, high: Byte) {
    Got(s, data) && s.bytes[s.len] == high
  }

  lemma NextSextet(s: Line, c: char)
    requires ValidLine(s) && s.phase in {Sextet1, Sextet2, Sextet3, Sextet4} && c !in {'\r', '\n', '*'}
    ensures var u := Summed(s, c);
      u == s.(calcsum := u.calcsum) && ValidLine(u) && Next(s, c) == InSextet(u, c)
  {
    hide InLetter, InNumberOrSign, InFirstDigit, InAnotherDigit, InSubDigits, InSextet, InChecksum, InName, XorByte;
  }

  lemma FirstSextet(s: Line, data: seq<Byte>, v: nat)
    requires Got(s, data) && s.phase == Sextet1 && v < 64
    ensures var t := Next(s, Alphabet(v)).0; GotPart(t, data, 4 * v) && t.phase == Sextet2
  {
    hide Next, Alphabet, Value64;
    AlphabetIsRead(v);
    NextSextet(s, Alphabet(v));
  }

  // A byte is complete, and the next one begun.
  lemma Completes(u: Line, data: seq<Byte>, h: nat, k: nat, low: Byte)
    requires k <= 8 && h * Pow2(k) < 256 && GotPart(u, data, h * Pow2(k)) && low < Pow2(k) && h * Pow2(k) + low < 256
    ensures var t := Completed(u, low);
      t.len == |data| + 1 && t.bytes[..t.len] == data + [h * Pow2(k) + low] && t == u.(bytes := t.bytes, len := t.len)
  {
    OrOfParts(h * Pow2(k), low, h, k);
  }

  lemma ShiftLeft(v: Byte, factor: nat, out: nat, rest: nat)
    requires v * factor == 256 * out + rest && rest < 256
    ensures Left(v, factor) == rest
  {
    DivMod(v * factor, 256, out, rest);
  }

  // A byte is completed, and the next one begun.
  lemma ByteCompleted(u: Line, data: seq<Byte>, h: nat, k: nat, low: Byte, high: Byte, next: Phase)
    requires k <= 8 && h * Pow2(k) < 256 && GotPart(u, data, h * Pow2(k)) && low < Pow2(k) && h * Pow2(k) + low < 256
    requires |data| + 1 < MAX_BYTES && next in {Sextet3, Sextet4}
    ensures var t := NextByte(u, low, high, next).0;
      GotPart(t, data + [h * Pow2(k) + low], high) && t.phase == next
  {
    Completes(u, data, h, k, low);
    hide Completed, Pow2;
  }

  lemma SecondSextet(s: Line, data: seq<Byte>, h: nat, high: nat, low: nat)
    requires h < 64 && high < 4 && low < 16 && GotPart(s, data, 4 * h) && s.phase == Sextet2 && |data| + 1 < MAX_BYTES
    ensures var t := Next(s, Alphabet(16 * high + low)).0;
      GotPart(t, data + [4 * h + high], 16 * low) && t.phase == Sextet3
  {
    hide Next, Alphabet, Value64, Left, NextByte, Pow2;
    var v := 16 * high + low;
    DivMod(v, 16, high, low);
    ShiftLeft(v, 16, high, 16 * low);
    AlphabetIsRead(v);
    NextSextet(s, Alphabet(v));
    assert Pow2(2) == 4 by { Pow2Small(); }
    ByteCompleted(Summed(s, Alphabet(v)), data, h, 2, high, 16 * low, Sextet3);
  }

  lemma ThirdSextet(s: Line, data: seq<Byte>, h: nat, high: nat, low: nat)
    requires h < 16 && high < 16 && low < 4 && GotPart(s, data, 16 * h) && s.phase == Sextet3 && |data| + 1 < MAX_BYTES
    ensures var t := Next(s, Alphabet(4 * high + low)).0;
      GotPart(t, data + [16 * h + high], 64 * low) && t.phase == Sextet4
  {
    hide Next, Alphabet, Value64, Left, NextByte, Pow2;
    var v := 4 * high + low;
    DivMod(v, 4, high, low);
    ShiftLeft(v, 64, high, 64 * low);
    AlphabetIsRead(v);
    NextSextet(s, Alphabet(v));
    assert Pow2(4) == 16 by { Pow2Small(); }
    ByteCompleted(Summed(s, Alphabet(v)), data, h, 4, high, 64 * low, Sextet4);
  }

  lemma FourthSextet(s: Line, data: seq<Byte>, h: nat, v: nat)
    requires h < 4 && v < 64 && GotPart(s, data, 64 * h) && s.phase == Sextet4 && |data| + 1 < MAX_BYTES
    ensures var t := Next(s, Alphabet(v)).0; Got(t, data + [64 * h + v]) && t.phase == Sextet1
  {
    hide Next, Alphabet, Value64, OrByte;
    AlphabetIsRead(v);
    NextSextet(s, Alphabet(v));
    Pow2Small();
    Completes(Summed(s, Alphabet(v)), data, h, 6, v);
  }

  // The padding adds nothing.
  lemma Padding(s: Line, data: seq<Byte>)
    requires Got(s, data) && s.phase in {Sextet3, Sextet4}
    ensures var t := Next(s, '=').0; Got(t, data) && t.phase == if s.phase == Sextet3 then Sextet4 else Sextet1
  {
    hide Next, Value64, OrByte;
    NextSextet(s, '=');
  }

  lemma AfterFour(s: Line, a: char, b: char, c: char, d: char)
    requires ValidLine(s)
    ensures After(s, [a, b, c, d]) == Next(Next(Next(Next(s, a).0, b).0, c).0, d).0
  {
    hide Next;
    assert "" + [a] == [a] && [a] + [b] == [a, b] && [a, b] + [c] == [a, b, c] && [a, b, c] + [d] == [a, b, c, d];
    AfterOne(s, "", a);
    AfterOne(s, [a], b);
    AfterOne(s, [a, b], c);
    AfterOne(s, [a, b, c], d);
  }

  // Four characters are three bytes: a and b1, b0 and c1, c0 and d,
  lemma FourSextets(s: Line, data: seq<Byte>, a: nat, b1: nat, b0: nat, c1: nat, c0: nat, d: nat)
    requires Got(s, data) && s.phase == Sextet1 && |data| + 3 < MAX_BYTES
    requires a < 64 && b1 < 4 && b0 < 16 && c1 < 16 && c0 < 4 && d < 64
    ensures var t := After(s, [Alphabet(a), Alphabet(16 * b1 + b0), Alphabet(4 * c1 + c0), Alphabet(d)]);
      Got(t, data + [4 * a + b1, 16 * b0 + c1, 64 * c0 + d]) && t.phase == Sextet1
  {
    assert ValidLine(s);
    hide Next, Got, GotPart, Alphabet, After;
    var b, c := Alphabet(16 * b1 + b0), Alphabet(4 * c1 + c0);
    AfterFour(s, Alphabet(a), b, c, Alphabet(d));
    FirstSextet(s, data, a);
    var s1 := Next(s, Alphabet(a)).0;
    SecondSextet(s1, data, a, b1, b0);
    var s2 := Next(s1, b).0;
    ThirdSextet(s2, data + [4 * a + b1], b0, c1, c0);
    FourthSextet(Next(s2, c).0, data + [4 * a + b1] + [16 * b0 + c1], c0, d);
    assert data + [4 * a + b1] + [16 * b0 + c1] + [64 * c0 + d] == data + [4 * a + b1, 16 * b0 + c1, 64 * c0 + d];
  }

  // or with padding two,
  lemma ThreeSextets(s: Line, data: seq<Byte>, a: nat, b1: nat, b0: nat, c1: nat)
    requires Got(s, data) && s.phase == Sextet1 && |data| + 2 < MAX_BYTES
    requires a < 64 && b1 < 4 && b0 < 16 && c1 < 16
    ensures var t := After(s, [Alphabet(a), Alphabet(16 * b1 + b0), Alphabet(4 * c1), '=']);
      Got(t, data + [4 * a + b1, 16 * b0 + c1]) && t.phase == Sextet1
  {
    assert ValidLine(s);
    hide Next, Got, GotPart, Alphabet, After;
    var b, c := Alphabet(16 * b1 + b0), Alphabet(4 * c1);
    AfterFour(s, Alphabet(a), b, c, '=');
    FirstSextet(s, data, a);
    var s1 := Next(s, Alphabet(a)).0;
    SecondSextet(s1, data, a, b1, b0);
    var s2 := Next(s1, b).0;
    ThirdSextet(s2, data + [4 * a + b1], b0, c1, 0);
    var s3 := Next(s2, c).0;
    PartIsGot(s3, data + [4 * a + b1] + [16 * b0 + c1], 0);
    Padding(s3, data + [4 * a + b1] + [16 * b0 + c1]);
    assert data + [4 * a + b1] + [16 * b0 + c1] == data + [4 * a + b1, 16 * b0 + c1];
  }

  // or one.
  lemma TwoSextets(s: Line, data: seq<Byte>, a: nat, b1: nat)
    requires Got(s, data) && s.phase == Sextet1 && |data| + 1 < MAX_BYTES
    requires a < 64 && b1 < 4
    ensures var t := After(s, [Alphabet(a), Alphabet(16 * b1), '=', '=']);
      Got(t, data + [4 * a + b1]) && t.phase == Sextet1
  {
    assert ValidLine(s);
    hide Next, Got, GotPart, Alphabet, After;
    var b := Alphabet(16 * b1);
    AfterFour(s, Alphabet(a), b, '=', '=');
    FirstSextet(s, data, a);
    var s1 := Next(s, Alphabet(a)).0;
    SecondSextet(s1, data, a, b1, 0);
    var s2 := Next(s1, b).0;
    PartIsGot(s2, data + [4 * a + b1], 0);
    Padding(s2, data + [4 * a + b1]);
    Padding(Next(s2, '=').0, data + [4 * a + b1]);
  }

  lemma ReadThree(s: Line, data: seq<Byte>, x: Byte, y: Byte, z: Byte)
    requires Got(s, data) && s.phase == Sextet1 && |data| + 3 < MAX_BYTES
    ensures var t := After(s, ThreeBytes(x, y, z)); Got(t, data + [x, y, z]) && t.phase == Sextet1
  {
    hide After, Got, Alphabet;
    FourSextets(s, data, x / 4, x % 4, y / 16, y % 16, z / 64, z % 64);
  }

  lemma ReadTwo(s: Line, data: seq<Byte>, x: Byte, y: Byte)
    requires Got(s, data) && s.phase == Sextet1 && |data| + 2 < MAX_BYTES
    ensures var t := After(s, TwoBytes(x, y)); Got(t, data + [x, y]) && t.phase == Sextet1
  {
    hide After, Got, Alphabet;
    ThreeSextets(s, data, x / 4, x % 4, y / 16, y % 16);
  }

  lemma ReadSingle(s: Line, data: seq<Byte>, x: Byte)
    requires Got(s, data) && s.phase == Sextet1 && |data| + 1 < MAX_BYTES
    ensures var t := After(s, OneByte(x)); Got(t, data + [x]) && t.phase == Sextet1
  {
    hide After, Got, Alphabet;
    TwoSextets(s, data, x / 4, x % 4);
  }

  lemma PartIsGot(s: Line, data: seq<Byte>, high: Byte)
    requires GotPart(s, data, high)
    ensures Got(s, data)
  {}

  // The parser undoes the encoding, for as many bytes as it has room for.
  lemma {:induction false} ReadBase64(s: Line, data: seq<Byte>, chunk: seq<Byte>)
    requires Got(s, data) && s.phase == Sextet1 && |data| + |chunk| < MAX_BYTES
    ensures var t := After(s, Encode(chunk)); Got(t, data + chunk) && t.phase == Sextet1
    decreases |chunk|
  {
    assert ValidLine(s);
    hide Next, OneByte, TwoBytes, ThreeBytes;
    if |chunk| == 0 {
      assert data + chunk == data;
    } else if |chunk| == 1 {
      assert chunk == [chunk[0]];
      ReadSingle(s, data, chunk[0]);
    } else if |chunk| == 2 {
      assert chunk == [chunk[0], chunk[1]];
      ReadTwo(s, data, chunk[0], chunk[1]);
    } else {
      var x, y, z := chunk[0], chunk[1], chunk[2];
      assert Encode(chunk) == ThreeBytes(x, y, z) + Encode(chunk[3..]);
      assert data + [x, y, z] + chunk[3..] == data + chunk;
      hide Encode, Got;
      AfterConcat(s, ThreeBytes(x, y, z), Encode(chunk[3..]));
      ReadThree(s, data, x, y, z);
      ReadBase64(After(s, ThreeBytes(x, y, z)), data + [x, y, z], chunk[3..]);
    }
  }

  // ---- Whole lines ----

  // A prefix after which the parser is ready for raster data.
  predicate Introduces(prefix: string) {
    Plain(prefix) && Parsed(prefix + "$").phase == Sextet1 && Parsed(prefix + "$").len == 0
  }

  function DataLine(prefix: string, chunk: seq<Byte>): string { prefix + "$" + Encode(chunk) }

  lemma PlainLine(prefix: string, chunk: seq<Byte>)
    requires Plain(prefix)
    ensures Plain(DataLine(prefix, chunk))
  {
    hide Encode;
    EncodedCharacters(chunk);
    forall i | 0 <= i < |Encode(chunk)| ensures Encode(chunk)[i] !in {'*', '\r', '\n'} {}
  }

  // Sent with its checksum, a line of raster data is accepted, and its bytes
  // are handed on as they were.
  lemma DataLineIsRead(prefix: string, chunk: seq<Byte>)
    requires Introduces(prefix) && |chunk| < MAX_BYTES
    ensures var line := Framed(DataLine(prefix, chunk), XorOf(DataLine(prefix, chunk)));
      Executed(line) && DataOf(line) == chunk && OneLine(line)
  {
    var line := DataLine(prefix, chunk);
    PlainLine(prefix, chunk);
    DigitsOnly(XorOf(line));
    hide Next, Encode, Framed;
    var s := Parsed(prefix + "$");
    assert Got(s, []);
    AfterConcat(Fresh(), prefix + "$", Encode(chunk));
    ReadBase64(s, [], chunk);
    assert [] + chunk == chunk;
    FramedLine(line, XorOf(line));
    FramedIsOneLine(line, XorOf(line));
  }

  lemma FramedIsOneLine(t: string, n: nat)
    requires Plain(t)
    ensures OneLine(Framed(t, n))
  {
    DigitsOnly(n);
  }
}
