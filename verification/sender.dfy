// The host's side of the line protocol: each line is sent with a checksum.
module LineSender {
  import opened Bits
  import opened GcodeLine
  import opened ParsedLines
  import opened Printer

  // The exclusive or of all bytes, starting from x.
  function XorFrom(x: Byte, t: string): Byte
    decreases |t|
  {
    if t == "" then x else XorFrom(XorByte(x, Code(t[0])), t[1..])
  }

  function XorOf(t: string): Byte { XorFrom(0, t) }

  lemma {:induction false} XorConcat(x: Byte, t: string, u: string)
    ensures XorFrom(x, t + u) == XorFrom(XorFrom(x, t), u)
    decreases |t|
  {
    if t == "" {
      assert t + u == u;
    } else {
      assert (t + u)[1..] == t[1..] + u;
      XorConcat(XorByte(x, Code(t[0])), t[1..], u);
    }
  }

  // What a line may consist of.
  predicate Plain(t: string) { '*' !in t && '\r' !in t && '\n' !in t }

  // The line as it is sent, without its end.
  function Framed(t: string, sum: nat): string { t + "*" + Decimal(sum) }

  // Python's strip().
  predicate IsSpace(c: char) { c in {' ', '\t', '\n', '\r', 0x0b as char, 0x0c as char} }

  function StripLeft(t: string): string {
    if t != "" && IsSpace(t[0]) then StripLeft(t[1..]) else t
  }

  function StripRight(t: string): string {
    if t != "" && IsSpace(t[|t| - 1]) then StripRight(t[..|t| - 1]) else t
  }

  function Strip(t: string): string { StripRight(StripLeft(t)) }

  // What is left begins and ends with something else, and nothing but space has
  // been taken away.
  lemma StripTakesSpaces(t: string) returns (left: string, right: string)
    ensures t == left + Strip(t) + right
    ensures (forall c :: c in left ==> IsSpace(c)) && (forall c :: c in right ==> IsSpace(c))
    ensures Strip(t) != "" ==> !IsSpace(Strip(t)[0]) && !IsSpace(Strip(t)[|Strip(t)| - 1])
  {
    left := StripsLeft(t);
    right := StripsRight(StripLeft(t));
  }

  lemma {:induction false} StripsLeft(t: string) returns (left: string)
    ensures t == left + StripLeft(t) && forall c :: c in left ==> IsSpace(c)
    ensures StripLeft(t) != "" ==> !IsSpace(StripLeft(t)[0])
  {
    left := "";
    if t != "" && IsSpace(t[0]) {
      var more := StripsLeft(t[1..]);
      left := [t[0]] + more;
    }
  }

  lemma {:induction false} StripsRight(t: string) returns (right: string)
    ensures t == StripRight(t) + right && forall c :: c in right ==> IsSpace(c)
    ensures StripRight(t) != "" ==> !IsSpace(StripRight(t)[|StripRight(t)| - 1])
  {
    right := "";
    if t != "" && IsSpace(t[|t| - 1]) {
      var more := StripsRight(t[..|t| - 1]);
      right := more + [t[|t| - 1]];
    }
  }

  function NewLines(n: nat): string { seq(n, _ => '\n') }

  class Sender {
    var port: string       // everything written so far
    var queueFree: int

    // Ask for the number of free slots: an empty line is answered with it.
    method CheckQueue(reply: int)
      modifies this
      ensures port == old(port) + "\n" && queueFree == reply
    {
      port := port + "\n";
      queueFree := reply;
    }

    // Send a line with its checksum, as soon as the machine has room for it:
    // it is asked for as long as it has not, and answers with the replies
    // given.  When these are used up it is still busy.
    method SendLine(line: string, replies: seq<int>) returns (sent: bool, ghost asked: nat)
      modifies this
      ensures sent ==> port == old(port) + NewLines(asked) + Framed(Strip(line), XorOf(Strip(line))) + "\n"
      ensures !sent ==> port == old(port) + NewLines(asked) && queueFree <= 1
      ensures asked <= |replies| && (old(queueFree) > 1 ==> asked == 0)
    {
      var i := 0;
      while queueFree <= 1 && i < |replies|
        invariant 0 <= i <= |replies| && (old(queueFree) > 1 ==> i == 0)
        invariant i == 0 ==> queueFree == old(queueFree)
        invariant port == old(port) + NewLines(i)
        decreases |replies| - i
      {
        CheckQueue(replies[i]);
        i := i + 1;
      }
      asked := i;
      sent := queueFree > 1;
      if !sent {
        return;
      }
      var text := Strip(line);
      var chk := Checksum(text);
      port := port + text;
      port := port + "*" + Decimal(chk);
      port := port + "\n";
    }

    method Checksum(text: string) returns (chk: Byte)
      ensures chk == XorOf(text)
    {
      chk := 0;
      for i := 0 to |text|
        invariant XorFrom(chk, text[i..]) == XorOf(text)
      {
        assert text[i..][1..] == text[i + 1..];
        chk := XorByte(chk, Code(text[i]));
      }
    }
  }

  // ---- What the parser makes of it ----

  // Before the '*' the parser sums up as the sender does.
  ghost predicate Summing(s: Line, x: Byte) {
    && ValidLine(s) && s.phase != Start && s.phase != BadChecksum && s.phase != GcodeLine.Checksum
    && s.calcsum == x && s.transum == 0 && s.sumChars == 0
  }

  lemma SumOne(s: Line, x: Byte, c: char)
    requires Summing(s, x) && c != '*' && c != '\r' && c != '\n'
    ensures Summing(Next(s, c).0, XorByte(x, Code(c)))
  {
    var t := Summed(s, c);
    assert Went(t, Interpret(t, c));
  }

  lemma {:induction false} SumAll(s: Line, x: Byte, t: string)
    requires Summing(s, x) && Plain(t)
    ensures Summing(After(s, t), XorFrom(x, t))
    decreases |t|
  {
    if t != "" {
      SumOne(s, x, t[0]);
      SumAll(Next(s, t[0]).0, XorByte(x, Code(t[0])), t[1..]);
    }
  }

  lemma ChecksumDigit(s: Line, d: nat)
    requires ValidLine(s) && s.phase == GcodeLine.Checksum && d < 10 && s.transum * 10 + d < 256 && s.sumChars < 255
    ensures Next(s, Digit(d)).0 == s.(transum := s.transum * 10 + d, sumChars := s.sumChars + 1)
  {
    assert InChecksum(s, Digit(d)).0 == s.(transum := s.transum * 10 + d, sumChars := s.sumChars + 1);
  }

  function Places(n: nat): Byte { if n < 10 then 1 else if n < 100 then 2 else 3 }

  // The digits of a checksum.
  lemma {:induction false} ReadChecksum(s: Line, n: nat)
    requires ValidLine(s) && s.phase == GcodeLine.Checksum && s.transum == 0 && s.sumChars == 0
    requires n < 256
    ensures After(s, Decimal(n)) == s.(transum := n, sumChars := Places(n))
  {
    if n < 10 {
      assert Decimal(n) == "" + [Digit(n)];
      AfterOne(s, "", Digit(n));
      ChecksumDigit(s, n);
    } else {
      ReadChecksum(s, n / 10);
      AfterOne(s, Decimal(n / 10), Digit(n % 10));
      ChecksumDigit(s.(transum := n / 10, sumChars := Places(n / 10)), n % 10);
    }
  }

  // After an error nothing changes any more but the sum.
  lemma {:induction false} ErrorStays(s: Line, t: string)
    requires ValidLine(s) && s.phase == Error && OneLine(t)
    ensures After(s, t) == s.(calcsum := After(s, t).calcsum)
    decreases |t|
  {
    if t != "" {
      ErrorStays(Next(s, t[0]).0, t[1..]);
    }
  }

  lemma {:induction false} DigitsOnly(n: nat)
    ensures OneLine(Decimal(n))
  {
    if n >= 10 { DigitsOnly(n / 10); }
  }

  // A framed line is executed exactly if it is free of errors and the number
  // is its checksum; with an error, the reply depends on whether there are
  // raster data in it.
  lemma FramedLine(t: string, n: nat)
    requires Plain(t) && n < 256
    ensures EndReply(Parsed(Framed(t, n))) ==
      if Parsed(t).phase == Error then if Parsed(t).len == 0 then FormatError else ChecksumError
      else if n == XorOf(t) then Done else ChecksumError
    ensures Parsed(t).phase != Error ==> RasterOf(Parsed(Framed(t, n))) == RasterOf(Parsed(t))
  {
    hide Next, Decimal;
    SumAll(Fresh(), 0, t);
    AfterConcat(Fresh(), t + "*", Decimal(n));
    AfterOne(Fresh(), t, '*');
    FramedEnd(Parsed(t), n);
  }

  // The same from any state before the '*'.
  lemma FramedEnd(s: Line, n: nat)
    requires Summing(s, s.calcsum) && n < 256
    ensures var e := After(Next(s, '*').0, Decimal(n));
      && EndReply(e) == (if s.phase == Error then if s.len == 0 then FormatError else ChecksumError
                         else if n == s.calcsum then Done else ChecksumError)
      && (s.phase != Error ==> RasterOf(e) == RasterOf(s))
  {
    hide Decimal;
    if s.phase == Error {
      AfterStarInError(s, n);
    } else {
      assert Next(s, '*').0 == s.(phase := GcodeLine.Checksum);
      hide Next;
      ReadChecksum(Next(s, '*').0, n);
    }
  }

  lemma AfterStarInError(s: Line, n: nat)
    requires Summing(s, s.calcsum) && s.phase == Error && n < 256
    ensures var e := After(Next(s, '*').0, Decimal(n));
      e == s.(calcsum := e.calcsum)
  {
    DigitsOnly(n);
    hide Decimal;
    var t := Next(s, '*').0;
    assert t == s.(calcsum := t.calcsum);
    hide Next;
    ErrorStays(t, Decimal(n));
  }
}
