// What a line may look like: spaces, remarks, letters without a number, and the
// limits of numbers.
module LineGrammar {
  import opened Arithmetic
  import opened Bits
  import opened GcodeLine
  import opened Numbers
  import opened ParsedLines
  import opened Printer

  // ---- Spaces and remarks ----

  predicate Blank(t: string) { forall i :: 0 <= i < |t| ==> t[i] == ' ' || t[i] == '\t' || t[i] == '\r' }

  // Between words, white space changes nothing but the checksum.
  lemma {:induction false} SpacesAreIgnored(s: Line, t: string)
    requires ValidLine(s) && s.phase == Letter && Blank(t)
    ensures After(s, t) == s.(calcsum := After(s, t).calcsum)
    decreases |t|
  {
    if t != "" {
      SpaceIsIgnored(s, t[0]);
      hide Next;
      SpacesAreIgnored(Next(s, t[0]).0, t[1..]);
    }
  }

  lemma SpaceIsIgnored(s: Line, c: char)
    requires ValidLine(s) && s.phase == Letter && c in {' ', '\t', '\r'}
    ensures Next(s, c).0 == s.(calcsum := Next(s, c).0.calcsum)
  {
    hide InNumberOrSign, InFirstDigit, InAnotherDigit, InSubDigits, InSextet, InChecksum, InName;
  }

  // Nor does anything behind a semicolon, to the end of the line or a checksum.
  lemma {:induction false} RestIsIgnored(s: Line, t: string)
    requires ValidLine(s) && s.phase == IgnoreRest && '*' !in t && OneLine(t)
    ensures After(s, t) == s.(calcsum := After(s, t).calcsum)
    decreases |t|
  {
    if t != "" {
      RestOneIsIgnored(s, t[0]);
      hide Next;
      RestIsIgnored(Next(s, t[0]).0, t[1..]);
    }
  }

  lemma RestOneIsIgnored(s: Line, c: char)
    requires ValidLine(s) && s.phase == IgnoreRest && c !in {'*', '\n'}
    ensures Next(s, c).0 == s.(calcsum := Next(s, c).0.calcsum)
  {
    hide InLetter, InNumberOrSign, InFirstDigit, InAnotherDigit, InSubDigits, InSextet, InChecksum, InName;
  }

  lemma RemarkIsIgnored(s: Line, t: string)
    requires ValidLine(s) && s.phase == Letter && '*' !in t && OneLine(t)
    ensures var e := After(s, ";" + t); e == s.(phase := IgnoreRest, calcsum := e.calcsum)
  {
    SemicolonBegins(s);
    hide Next, After;
    FirstChar(s, ';', t);
    RestIsIgnored(Next(s, ';').0, t);
  }

  lemma SemicolonBegins(s: Line)
    requires ValidLine(s) && s.phase == Letter
    ensures var t := Next(s, ';').0; t == s.(phase := IgnoreRest, calcsum := t.calcsum)
  {
    hide InNumberOrSign, InFirstDigit, InAnotherDigit, InSubDigits, InSextet, InChecksum, InName;
  }

  lemma FirstChar(s: Line, c: char, t: string)
    requires ValidLine(s)
    ensures After(s, [c] + t) == After(Next(s, c).0, t)
  {
    assert ([c] + t)[1..] == t;
  }

  // ---- Letters ----

  // A letter without a number is seen, but has none.
  lemma BareLetter(s: Line, c: char)
    requires ValidLine(s) && s.phase == Letter && 'A' <= c <= 'Z'
    ensures var e, letter := After(s, [c] + " "), c as int - 'A' as int;
      e == s.(letter := letter, codes := s.codes + {letter}, calcsum := e.calcsum)
  {
    LetterBegins(s, c);
    var w := Next(s, c).0;
    SpaceAfterLetter(w);
    hide Next, After;
    FirstChar(s, c, " ");
    assert " " == [' '] + "";
    FirstChar(w, ' ', "");
    NothingMore(Next(w, ' ').0);
  }

  lemma NothingMore(s: Line)
    requires ValidLine(s)
    ensures After(s, "") == s
  {}

  lemma SpaceAfterLetter(s: Line)
    requires ValidLine(s) && s.phase == NumberOrSign
    ensures var t := Next(s, ' ').0; t == s.(phase := Letter, calcsum := t.calcsum)
  {
    hide InLetter, InFirstDigit, InAnotherDigit, InSubDigits, InSextet, InChecksum, InName;
  }

  // ---- Numbers ----

  // A plus sign says nothing.
  lemma PlusIsNothing(s: Line, c: char, n: nat)
    requires ValidLine(s) && s.phase == Letter && 'A' <= c <= 'Z' && n < LIMIT
    ensures var letter := c as int - 'A' as int;
      After(s, [c] + ("+" + Thousandths(n))).numbers == s.numbers[letter := n]
  {
    hide Next, After, Thousandths, Expecting, Reading;
    AfterLetter(s, c, "+" + Thousandths(n));
    var w := Next(s, c).0;
    FirstChar(w, '+', Thousandths(n));
    ReadPlus(s, w);
    var v := Next(w, '+').0;
    ReadFixed(s, v, false, n);
    ReadingMeans(s, After(v, Thousandths(n)), false, n, |Decimal(n / 1000)|, 3);
  }

  lemma ReadPlus(s0: Line, s: Line)
    requires Expecting(s0, s, false) && s.phase == NumberOrSign
    ensures Expecting(s0, Next(s, '+').0, false) && Next(s, '+').0.letter == s.letter
  {
    assert Next(s, '+') == InNumberOrSign(Summed(s, '+'), '+');
  }

  predicate AllDigits(t: string) { forall i :: 0 <= i < |t| ==> IsDigit(t[i]) }

  // Decimals beyond the third are not taken, nor are digits beyond the tenth.
  lemma {:induction false} MoreDecimals(s: Line, t: string)
    requires ValidLine(s) && s.phase == SubDigits && (s.subdigits == 3 || s.digits + s.subdigits == 10) && AllDigits(t)
    ensures After(s, t) == s.(calcsum := After(s, t).calcsum)
    decreases |t|
  {
    if t != "" {
      AnotherDecimal(s, t[0]);
      hide Next;
      MoreDecimals(Next(s, t[0]).0, t[1..]);
    }
  }

  lemma AnotherDecimal(s: Line, c: char)
    requires ValidLine(s) && s.phase == SubDigits && (s.subdigits == 3 || s.digits + s.subdigits == 10) && IsDigit(c)
    ensures Next(s, c).0 == s.(calcsum := Next(s, c).0.calcsum)
  {
    hide InLetter, InNumberOrSign, InFirstDigit, InAnotherDigit, InSextet, InChecksum, InName;
  }

  // No number has more than ten digits before the point.
  lemma {:induction false} ElevenDigits(s: Line, t: string)
    requires ValidLine(s) && s.phase in {FirstDigit, AnotherDigit, Error} && AllDigits(t) && OneLine(t)
    requires s.phase == Error || s.digits + |t| > 10
    ensures After(s, t).phase == Error
    decreases |t|
  {
    if s.phase == Error {
      ErrorLasts(s, t);
    } else {
      OneMoreDigit(s, t[0]);
      hide Next;
      ElevenDigits(Next(s, t[0]).0, t[1..]);
    }
  }

  lemma OneMoreDigit(s: Line, c: char)
    requires ValidLine(s) && s.phase in {FirstDigit, AnotherDigit} && IsDigit(c)
    ensures var t := Next(s, c).0; t.phase == Error || (s.digits < 10 && t.phase == AnotherDigit && t.digits == s.digits + 1)
  {
    hide InLetter, InNumberOrSign, InSubDigits, InSextet, InChecksum, InName, Scaled, Unsigned32;
  }

  // A number is to be followed by white space, a remark or data: neither by a
  // letter nor by a sign.
  lemma WordsNeedSpaces(s: Line, c: char)
    requires ValidLine(s) && s.phase in {AnotherDigit, SubDigits} && (IsLetter(c) || c in {'+', '-'})
    ensures Next(s, c) == (Next(s, c).0, FormatError) && Next(s, c).0.phase == Error
  {
    hide Next, InAnotherDigit, InSubDigits, Store, Summed;
    NextInterprets(s, c);
    NumberEnds(Summed(s, c), c);
  }

  lemma NumberEnds(s: Line, c: char)
    requires ValidLine(s) && s.phase in {AnotherDigit, SubDigits} && (IsLetter(c) || c in {'+', '-'})
    ensures (if s.phase == AnotherDigit then InAnotherDigit(s, c) else InSubDigits(s, c)) == (s.(phase := Error), FormatError)
  {
    hide Store;
  }

  // ---- Names ----

  // The phase of a name, and what ends it.
  predicate EndsName(p: Phase, c: char) {
    (p == DoubleTicked && c == '"') || (p == Ticked && c == '\'') || (p == Name && c in {' ', '\t'})
  }

  // All characters up to the end of a name belong to it; then words follow.
  lemma {:induction false} NameIsTaken(s: Line, t: string, end: char)
    requires ValidLine(s) && s.phase in {Name, Ticked, DoubleTicked} && EndsName(s.phase, end)
    requires forall i :: 0 <= i < |t| ==> !EndsName(s.phase, t[i]) && t[i] !in {'*', '\r', '\n'}
    ensures var e := After(s, t + [end]); e == s.(phase := Letter, name := s.name + t, calcsum := e.calcsum)
    decreases |t|
  {
    hide Next, After, ValidLine;
    if t == "" {
      NameEnds(s, end);
      assert t + [end] == [end] + "";
      FirstChar(s, end, "");
      NothingMore(Next(s, end).0);
    } else {
      NameGoesOn(s, t[0]);
      assert t + [end] == [t[0]] + (t[1..] + [end]);
      FirstChar(s, t[0], t[1..] + [end]);
      NameIsTaken(Next(s, t[0]).0, t[1..], end);
      assert s.name + [t[0]] + t[1..] == s.name + t;
    }
  }

  lemma NameEnds(s: Line, c: char)
    requires ValidLine(s) && s.phase in {Name, Ticked, DoubleTicked} && EndsName(s.phase, c)
    ensures var t := Next(s, c).0; t == s.(phase := Letter, calcsum := t.calcsum) && ValidLine(t)
  {
    hide InLetter, InNumberOrSign, InFirstDigit, InAnotherDigit, InSubDigits, InSextet, InChecksum;
  }

  // It may have fifteen; more are refused one by one, and taken all the same.
  lemma NameGoesOn(s: Line, c: char)
    requires ValidLine(s) && s.phase in {Name, Ticked, DoubleTicked} && !EndsName(s.phase, c) && c !in {'*', '\r', '\n'}
    ensures var t := Next(s, c).0; t == s.(name := s.name + [c], calcsum := t.calcsum) && ValidLine(t)
    ensures Next(s, c).1 == if |s.name| < 15 then NextChar else FormatError
  {
    hide InLetter, InNumberOrSign, InFirstDigit, InAnotherDigit, InSubDigits, InSextet, InChecksum;
  }

  // Where a name begins: at a quote, or where no word can.
  lemma NameBegins(s: Line, c: char)
    requires ValidLine(s) && s.phase == Letter && c !in {'*', '\r', '\n'}
    ensures var t := Next(s, c).0;
      && (c == '"' ==> t == s.(phase := DoubleTicked, calcsum := t.calcsum))
      && (c == '\'' ==> t == s.(phase := Ticked, calcsum := t.calcsum))
      && (!('A' <= c <= 'Z') && c !in {' ', '\t', ';', '(', '$', '\'', '"'} ==>
            t.phase == (if s.name == "" then Name else Error) && (s.name == "" ==> t.name == [c]))
  {
    hide InNumberOrSign, InFirstDigit, InAnotherDigit, InSubDigits, InSextet, InChecksum, InName;
  }
}
