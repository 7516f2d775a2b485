// The checksum protocol on any line: what is compared with what, told from the
// text alone.
module ChecksumGate {
  import opened Arithmetic
  import opened Bits
  import opened GcodeLine
  import opened ParsedLines
  import opened LineSender
  import opened Printer

  // Carriage returns are not seen by the parser.
  function WithoutReturns(t: string): string
    decreases |t|
  {
    if t == "" then "" else (if t[0] == '\r' then "" else [t[0]]) + WithoutReturns(t[1..])
  }

  // ---- What the text of a line says ----

  // A '*' begins a number; the digits after it belong to it, and more '*' in
  // between.  Anything else ends it.
  function Reads(reading: bool, c: char): bool {
    c == '*' || (reading && (IsDigit(c) || c == '\r'))
  }

  predicate OfSum(reading: bool, c: char) { reading && IsDigit(c) }

  // The digits of all numbers of a checksum.
  function SumDigits(reading: bool, u: string): string
    decreases |u|
  {
    if u == "" then ""
    else (if OfSum(reading, u[0]) then [u[0]] else "") + SumDigits(Reads(reading, u[0]), u[1..])
  }

  // What is summed: neither '*' nor carriage return, nor the digits of a number
  // and the character right after it; and nothing while there are digits, the
  // number of which is known modulo 256.
  predicate IsCovered(reading: bool, digits: nat, c: char) {
    c != '*' && c != '\r' && !reading && digits % 256 == 0
  }

  function Covered(reading: bool, digits: nat, u: string): string
    decreases |u|
  {
    if u == "" then ""
    else
      (if IsCovered(reading, digits, u[0]) then [u[0]] else "") +
      Covered(Reads(reading, u[0]), if OfSum(reading, u[0]) then digits + 1 else digits, u[1..])
  }

  function Value(v: nat, d: string): nat
    decreases |d|
  {
    if d == "" then v else Value(v * 10 + DigitValue(d[0]), d[1..])
  }

  // ---- What the parser makes of it ----

  // The parser is free of errors, and so many digits, of the number v, have been
  // read and x has been summed.
  ghost predicate Agrees(s: Line, reading: bool, digits: nat, v: nat, x: Byte) {
    && ValidLine(s) && s.phase !in {Start, BadChecksum, Error} && (s.phase == Checksum) == reading
    && s.sumChars == digits % 256 && s.transum == v % 256 && s.calcsum == x
  }

  lemma AgreesAfterOne(s: Line, reading: bool, digits: nat, v: nat, x: Byte, c: char)
    requires Agrees(s, reading, digits, v, x) && c != '\n'
    ensures var t := Next(s, c).0;
      t.phase == Error ||
      Agrees(t, Reads(reading, c), if OfSum(reading, c) then digits + 1 else digits,
        if OfSum(reading, c) then v * 10 + DigitValue(c) else v, if IsCovered(reading, digits, c) then XorByte(x, Code(c)) else x)
  {
    if c == '*' || c == '\r' {
      assert Next(s, c).0 == if c == '*' then s.(phase := Checksum) else s;
    } else if reading {
      NumberStep(s, c);
      hide Next;
      if IsDigit(c) {
        OneMoreDigit(digits, v, DigitValue(c));
      }
    } else {
      TextStep(s, c);
      hide Next;
    }
  }

  lemma NumberStep(s: Line, c: char)
    requires ValidLine(s) && s.phase == Checksum && c !in {'*', '\r', '\n'}
    ensures var t := Next(s, c).0;
      && ValidLine(t) && t.phase !in {Start, BadChecksum} && t.calcsum == s.calcsum
      && (t.phase == Error ||
          if IsDigit(c) then t.phase == Checksum && t.sumChars == (s.sumChars + 1) % 256 && t.transum == (s.transum * 10 + DigitValue(c)) % 256
          else t.phase != Checksum && t.sumChars == s.sumChars && t.transum == s.transum)
  {
    hide Next;
    NextOfSum(s, c);
  }

  lemma NextOfSum(s: Line, c: char)
    requires ValidLine(s) && s.phase == Checksum && c !in {'*', '\r', '\n'}
    ensures Next(s, c) == InChecksum(s, c)
  {
    hide InLetter, InNumberOrSign, InFirstDigit, InAnotherDigit, InSubDigits, InSextet, InName, InChecksum;
  }

  lemma TextStep(s: Line, c: char)
    requires ValidLine(s) && s.phase !in {Checksum, Start, BadChecksum} && c !in {'*', '\r', '\n'}
    ensures var t := Next(s, c).0;
      && ValidLine(t) && t.phase !in {Checksum, Start, BadChecksum}
      && t.sumChars == s.sumChars && t.transum == s.transum
      && t.calcsum == if s.sumChars == 0 then XorByte(s.calcsum, Code(c)) else s.calcsum
  {
    assert Went(Summed(s, c), Interpret(Summed(s, c), c));
  }

  lemma OneMoreDigit(digits: nat, v: nat, d: nat)
    ensures (digits % 256 + 1) % 256 == (digits + 1) % 256
    ensures (v % 256 * 10 + d) % 256 == (v * 10 + d) % 256
  {
    SameRemainder(v * 10 + d, 10 * (v / 256), v % 256 * 10 + d);
  }

  lemma SameRemainder(a: nat, q: nat, b: nat)
    requires a == 256 * q + b
    ensures a % 256 == b % 256
  {
    DivMod(a, 256, q + b / 256, b % 256);
  }

  lemma {:induction false} AgreesAfter(s: Line, reading: bool, digits: nat, v: nat, x: Byte, u: string)
    requires Agrees(s, reading, digits, v, x) && OneLine(u)
    ensures var t := After(s, u);
      t.phase == Error ||
      Agrees(t, t.phase == Checksum, digits + |SumDigits(reading, u)|, Value(v, SumDigits(reading, u)),
        XorFrom(x, Covered(reading, digits, u)))
    decreases |u|
  {
    hide Next, XorByte, Value, XorFrom, SumDigits, Covered;
    if u == "" {
      NothingRead(reading, digits, v, x);
    } else {
      var c, t := u[0], Next(s, u[0]).0;
      AgreesAfterOne(s, reading, digits, v, x, c);
      if t.phase == Error {
        ErrorLasts(t, u[1..]);
      } else {
        var digit := OfSum(reading, c);
        var digits', v' := if digit then digits + 1 else digits, if digit then v * 10 + DigitValue(c) else v;
        var x' := if IsCovered(reading, digits, c) then XorByte(x, Code(c)) else x;
        AgreesAfter(t, Reads(reading, c), digits', v', x', u[1..]);
        FirstOfText(reading, digits, v, x, u);
      }
    }
  }

  lemma NothingRead(reading: bool, digits: nat, v: nat, x: Byte)
    ensures SumDigits(reading, "") == "" && Covered(reading, digits, "") == "" && Value(v, "") == v && XorFrom(x, "") == x
  {}

  lemma FirstOfText(reading: bool, digits: nat, v: nat, x: Byte, u: string)
    requires u != ""
    ensures var c, digit := u[0], OfSum(reading, u[0]);
      var digits', d, b := if digit then digits + 1 else digits, SumDigits(reading, u), Covered(reading, digits, u);
      var d', b' := SumDigits(Reads(reading, c), u[1..]), Covered(Reads(reading, c), digits', u[1..]);
      && digits + |d| == digits' + |d'| && Value(v, d) == Value(if digit then v * 10 + DigitValue(c) else v, d')
      && XorFrom(x, b) == XorFrom(if IsCovered(reading, digits, c) then XorByte(x, Code(c)) else x, b')
  {
    hide XorByte;
    var c, digit := u[0], OfSum(reading, u[0]);
    var d', b' := SumDigits(Reads(reading, c), u[1..]), Covered(Reads(reading, c), if digit then digits + 1 else digits, u[1..]);
    assert ([c] + d')[1..] == d' && ([c] + b')[1..] == b';
    assert "" + d' == d' && "" + b' == b';
  }

  // Any line: a command is processed if and only if no character led into an
  // error and the number read, modulo 256, is the exclusive or of what is
  // covered; without a number, there must be no raster data.
  lemma Compared(line: string)
    requires OneLine(line)
    ensures var d := SumDigits(false, line);
      Executed(line) == (
        && Parsed(line).phase != Error
        && if |d| % 256 != 0 then Value(0, d) % 256 == XorOf(Covered(false, 0, line)) else Parsed(line).len == 0)
  {
    FreshAgrees();
    hide Next, Value, XorFrom, Covered, SumDigits, Fresh;
    AgreesAfter(Fresh(), false, 0, 0, 0, line);
    if Parsed(line).phase != Error {
      EndOfAgreed(Parsed(line), |SumDigits(false, line)|, Value(0, SumDigits(false, line)), XorOf(Covered(false, 0, line)));
    }
  }

  lemma FreshAgrees()
    ensures Agrees(Fresh(), false, 0, 0, 0)
  {}

  lemma EndOfAgreed(e: Line, digits: nat, v: nat, x: Byte)
    requires Agrees(e, e.phase == Checksum, digits, v, x)
    ensures EndReply(e) == Done <==> if digits % 256 != 0 then v % 256 == x else e.len == 0
  {}

  // ---- The bytes before the first '*' ----

  lemma {:induction false} BeforeStar(t: string, u: string)
    requires '*' !in t
    ensures SumDigits(false, t + "*" + u) == SumDigits(true, u)
    ensures Covered(false, 0, t + "*" + u) == WithoutReturns(t) + Covered(true, 0, u)
    decreases |t|
  {
    var line := t + "*" + u;
    if t == "" {
      assert line[0] == '*' && line[1..] == u;
      assert "" + SumDigits(true, u) == SumDigits(true, u) && "" + Covered(true, 0, u) == Covered(true, 0, u);
    } else {
      BeforeStar(t[1..], u);
      assert line[1..] == t[1..] + "*" + u;
      var first := if t[0] == '\r' then "" else [t[0]];
      assert first + (WithoutReturns(t[1..]) + Covered(true, 0, u)) == first + WithoutReturns(t[1..]) + Covered(true, 0, u);
      assert "" + SumDigits(true, u) == SumDigits(true, u);
    }
  }

  // With a number, the sum that it is compared with is that of the bytes before
  // the first '*' and of those that are still covered behind.
  lemma Gatekeeper(t: string, u: string)
    requires '*' !in t && OneLine(t) && OneLine(u)
    ensures var line, d := t + "*" + u, SumDigits(true, u);
      Executed(line) == (
        && Parsed(line).phase != Error
        && if |d| % 256 != 0 then Value(0, d) % 256 == XorByte(XorOf(WithoutReturns(t)), XorOf(Covered(true, 0, u)))
           else Parsed(line).len == 0)
  {
    hide Value, XorFrom, XorByte, Covered, SumDigits, WithoutReturns, Executed, Parsed;
    Compared(t + "*" + u);
    BeforeStar(t, u);
    XorConcat(0, WithoutReturns(t), Covered(true, 0, u));
    XorFromIs(XorOf(WithoutReturns(t)), Covered(true, 0, u));
  }

  // So the number is that of the bytes before the first '*', in the lines that
  // are executed with one, exactly if those that are covered behind cancel out.
  lemma SumOfBeginning(t: string, u: string)
    requires '*' !in t && OneLine(t) && OneLine(u) && |SumDigits(true, u)| % 256 != 0
    ensures var line, n := t + "*" + u, Value(0, SumDigits(true, u)) % 256;
      var sum, more := XorOf(WithoutReturns(t)), XorOf(Covered(true, 0, u));
      && (Executed(line) ==> (n == sum <==> more == 0))
      && (more == 0 ==> (Executed(line) <==> Parsed(line).phase != Error && n == sum))
  {
    hide Value, XorFrom, XorByte, Covered, SumDigits, WithoutReturns, Executed, Parsed;
    Gatekeeper(t, u);
    XorCancels(XorOf(WithoutReturns(t)), XorOf(Covered(true, 0, u)));
  }

  // ---- Exclusive or ----

  lemma XorBits8(a: Byte, b: Byte)
    ensures ToBits(XorByte(a, b), 8) == XorBits(ToBits(a, 8), ToBits(b, 8))
  {
    ToFromBits(XorBits(ToBits(a, 8), ToBits(b, 8)));
  }

  lemma SameBits(a: Byte, b: Byte)
    requires ToBits(a, 8) == ToBits(b, 8)
    ensures a == b
  {
    ByteBack(a);
    ByteBack(b);
  }

  lemma XorCancels(a: Byte, b: Byte)
    ensures XorByte(a, b) == a <==> b == 0
  {
    hide ToBits, FromBits;
    XorBits8(a, b);
    ZeroBits(8);
    var s, t := ToBits(a, 8), ToBits(b, 8);
    if b == 0 {
      assert XorBits(s, Zeros(8)) == s;
      SameBits(XorByte(a, b), a);
    }
    if XorByte(a, b) == a {
      forall i | 0 <= i < 8 ensures !t[i] {
        assert XorBits(s, t)[i] == s[i];
      }
      assert t == Zeros(8);
      SameBits(b, 0);
    }
  }

  lemma XorAssociates(a: Byte, b: Byte, c: Byte)
    ensures XorByte(XorByte(a, b), c) == XorByte(a, XorByte(b, c))
  {
    hide ToBits, FromBits;
    XorBits8(a, b);
    XorBits8(b, c);
    XorBits8(XorByte(a, b), c);
    XorBits8(a, XorByte(b, c));
    var s, t, r := ToBits(a, 8), ToBits(b, 8), ToBits(c, 8);
    assert XorBits(XorBits(s, t), r) == XorBits(s, XorBits(t, r));
    SameBits(XorByte(XorByte(a, b), c), XorByte(a, XorByte(b, c)));
  }

  lemma {:induction false} XorFromIs(x: Byte, t: string)
    ensures XorFrom(x, t) == XorByte(x, XorOf(t))
    decreases |t|
  {
    hide XorByte;
    XorCancels(x, 0);
    if t != "" {
      var c := Code(t[0]);
      XorFromIs(XorByte(x, c), t[1..]);
      XorFromIs(XorByte(0, c), t[1..]);
      XorAssociates(0, c, XorOf(t[1..]));
      ZeroFirst(c);
      XorAssociates(x, c, XorOf(t[1..]));
    }
  }

  lemma ZeroFirst(c: Byte)
    ensures XorByte(0, c) == c
  {
    hide ToBits, FromBits;
    XorBits8(0, c);
    ZeroBits(8);
    assert XorBits(Zeros(8), ToBits(c, 8)) == ToBits(c, 8);
    SameBits(XorByte(0, c), c);
  }

  // ---- A number right after the '*' ----

  // After a '*', the first thing that is neither another one nor a carriage
  // return is a digit.
  predicate DigitFirst(u: string)
    decreases |u|
  {
    u != "" && (IsDigit(u[0]) || (u[0] in {'*', '\r'} && DigitFirst(u[1..])))
  }

  // Once there are digits nothing more is covered.
  lemma {:induction false} NothingCovered(reading: bool, digits: nat, u: string)
    requires 0 < digits && digits + |SumDigits(reading, u)| < 256
    ensures Covered(reading, digits, u) == ""
    decreases |u|
  {
    if u != "" {
      NothingCovered(Reads(reading, u[0]), if OfSum(reading, u[0]) then digits + 1 else digits, u[1..]);
    }
  }

  lemma {:induction false} DigitsCoverNothing(u: string)
    requires DigitFirst(u) && |SumDigits(true, u)| < 256
    ensures Covered(true, 0, u) == "" && |SumDigits(true, u)| > 0
    decreases |u|
  {
    if IsDigit(u[0]) {
      NothingCovered(true, 1, u[1..]);
    } else {
      DigitsCoverNothing(u[1..]);
    }
  }

  // Then the line is executed if and only if it is free of errors and the number
  // is the exclusive or of the bytes before the '*'.  What follows the number is
  // not summed, be it a comment or words.
  lemma ComparedWithSum(t: string, u: string)
    requires '*' !in t && OneLine(t) && OneLine(u) && DigitFirst(u) && |SumDigits(true, u)| < 256
    ensures var line := t + "*" + u;
      Executed(line) <==> Parsed(line).phase != Error && Value(0, SumDigits(true, u)) % 256 == XorOf(WithoutReturns(t))
  {
    hide Value, XorByte, WithoutReturns, Executed, Parsed;
    DigitsCoverNothing(u);
    assert XorOf("") == 0;
    hide Covered, SumDigits, DigitFirst, XorFrom;
    SumOfBeginning(t, u);
  }

  // ---- Where something else is compared ----

  // With a comment right after the '*' the sum goes on in that: for every such
  // beginning there is a line that is executed with another number.
  lemma SumGoesOn(t: string)
    requires Plain(t) && Parsed(t).phase != Error
    ensures var n := XorByte(XorOf(t), Code('a')); n != XorOf(t) && Executed(t + "*;a*" + Decimal(n))
  {
    hide Next, After, XorFrom, Decimal, EndReply, Fresh, XorByte;
    FreshSums();
    var s, n := Parsed(t), XorByte(XorOf(t), Code('a'));
    SumAll(Fresh(), 0, t);
    AnotherSum(XorOf(t));
    StarRemark(s, XorOf(t));
    var r := After(s, "*;a");
    FramedEnd(r, n);
    AfterConcat(Fresh(), t, "*;a");
    AfterConcat(Fresh(), t + "*;a*", Decimal(n));
    assert t + "*;a" + "*" == t + "*;a*";
    AfterOne(Fresh(), t + "*;a", '*');
  }

  lemma FreshSums()
    ensures Summing(Fresh(), 0)
  {}

  lemma AtStar(s: Line)
    requires ValidLine(s) && s.phase != Error && s.phase != Start
    ensures Next(s, '*').0 == s.(phase := Checksum)
  {}

  lemma StarRemark(s: Line, x: Byte)
    requires Summing(s, x) && s.phase != Error
    ensures Summing(After(s, "*;a"), XorByte(x, Code('a'))) && After(s, "*;a").phase == IgnoreRest
  {
    hide XorByte;
    var s1 := Next(s, '*').0;
    var s2 := Next(s1, ';').0;
    var s3 := Next(s2, 'a').0;
    assert s1 == s.(phase := Checksum) && s2 == s.(phase := IgnoreRest);
    assert s3 == s2.(calcsum := XorByte(x, Code('a')));
    assert "*;a"[1..] == ";a" && ";a"[1..] == "a" && "a"[1..] == "";
    assert After(s3, "") == s3;
    assert After(s2, "a") == After(s3, "");
    assert After(s1, ";a") == After(s2, "a");
    assert After(s, "*;a") == After(s1, ";a");
  }

  lemma AnotherSum(x: Byte)
    ensures XorByte(x, Code('a')) != x
  {
    var bits, more := ToBits(x, 8), ToBits(Code('a'), 8);
    assert more[7];
    ToFromBits(XorBits(bits, more));
    assert ToBits(XorByte(x, Code('a')), 8) == XorBits(bits, more);
    assert XorBits(bits, more)[7] != bits[7];
  }

  // And 256 noughts make the count of digits 0 again: as if there were none.
  lemma DigitsUncounted(t: string)
    requires Plain(t) && Parsed(t).phase != Error && Parsed(t).len == 0
    ensures Executed(t + "*" + NoughtsFor(256))
  {
    hide Next, After, XorFrom, Fresh;
    FreshSums();
    var s := Parsed(t);
    SumAll(Fresh(), 0, t);
    AfterConcat(Fresh(), t + "*", NoughtsFor(256));
    AfterOne(Fresh(), t, '*');
    AtStar(s);
    Noughts(Next(s, '*').0, 256);
  }

  function NoughtsFor(n: nat): string { seq(n, _ => '0') }

  lemma {:induction false} Noughts(s: Line, n: nat)
    requires ValidLine(s) && s.phase == Checksum && s.transum == 0 && s.sumChars == 0
    ensures After(s, NoughtsFor(n)) == s.(sumChars := n % 256)
  {
    hide Next;
    if n == 0 {
      assert NoughtsFor(0) == "";
    } else {
      OneMoreNought(n);
      hide After, NoughtsFor;
      Noughts(s, n - 1);
      AfterOne(s, NoughtsFor(n - 1), '0');
      Nought(s.(sumChars := (n - 1) % 256));
    }
  }

  lemma OneMoreNought(n: nat)
    requires n > 0
    ensures NoughtsFor(n) == NoughtsFor(n - 1) + ['0'] && ((n - 1) % 256 + 1) % 256 == n % 256
  {}

  lemma Nought(s: Line)
    requires ValidLine(s) && s.phase == Checksum && s.transum == 0
    ensures Next(s, '0').0 == s.(sumChars := (s.sumChars + 1) % 256)
  {
    hide Next;
    NextOfSum(s, '0');
  }

  // A comment after the number leads back to where words are read, with the sum
  // complete: they are executed, but not summed.
  lemma WordsAfterNumber(t: string)
    requires Plain(t) && Parsed(t).phase != Error
    ensures Parsed(Framed(t, XorOf(t)) + "()") ==
      Parsed(t).(phase := Letter, transum := XorOf(t), sumChars := Places(XorOf(t)))
  {
    hide Next, After, XorFrom, Decimal, Fresh;
    FreshSums();
    var s, line := Parsed(t), Framed(t, XorOf(t));
    SumAll(Fresh(), 0, t);
    AfterConcat(Fresh(), t + "*", Decimal(XorOf(t)));
    AfterOne(Fresh(), t, '*');
    AtStar(s);
    ReadChecksum(Next(s, '*').0, XorOf(t));
    EmptyComment(Parsed(line));
    AfterOne(Fresh(), line, '(');
    assert line + "(" + ")" == line + "()";
    AfterOne(Fresh(), line + "(", ')');
  }

  lemma EmptyComment(s: Line)
    requires ValidLine(s) && s.phase == Checksum && s.sumChars > 0
    ensures Next(Next(s, '(').0, ')').0 == s.(phase := Letter)
  {
    NextOfSum(s, '(');
    hide InLetter, InNumberOrSign, InFirstDigit, InAnotherDigit, InSubDigits, InSextet, InName;
  }
}
