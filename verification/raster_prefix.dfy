// The words that the renderer writes before the raster data of a piece: after
// them the parser is ready for the data, and knows the way and the pixels.
module RasterPrefix {
  import opened Arithmetic
  import opened Bits
  import opened GcodeLine
  import opened LineSender
  import opened Numbers
  import opened ParsedLines
  import opened Printer
  import opened RasterLines

  // A way of three decimals, and a number of pixels.
  function Prefix(negative: bool, k: nat, n: nat): string {
    "G1 " + ("X" + Signed(negative, k) + " ") + ("Q" + Decimal(n) + " ")
  }

  function Signed(negative: bool, k: nat): string { if negative then "-" + Thousandths(k) else Thousandths(k) }

  lemma EmptyPrefix()
    ensures Introduces("")
  {
    assert "" + "$" == "$";
    assert Parsed("$") == Next(Fresh(), '$').0 by {
      hide Next;
      AfterOne(Fresh(), "", '$');
    }
    DollarIsNext(Fresh());
  }

  lemma DollarIsNext(s: Line)
    requires ValidLine(s) && s.phase == Letter
    ensures Next(s, '$').0.phase == Sextet1 && Next(s, '$').0.len == s.len
  {}

  // ---- Words that end with a space ----

  lemma SpaceAfterDigits(s0: Line, s: Line, negative: bool, m: nat, digits: nat)
    requires Reading(s0, s, negative, m, digits, 0) && s.phase == AnotherDigit && m * 1000 < LIMIT
    ensures var t := Next(s, ' ').0;
      Reading(s0, t, negative, m, digits, 0) && t.phase == Letter && t.letter == s.letter
  {
    hide Next, Store, InNumberOrSign, InFirstDigit, InSubDigits, Summed;
    TenNine();
    NextInterprets(s, ' ');
    var v := Summed(s, ' ').(phase := Letter);
    assert InAnotherDigit(Summed(s, ' '), ' ') == Store(v);
    StoreReads(s0, s, v, negative, m, digits, 0);
  }

  lemma SpaceAfterPoint(s: Line)
    requires ValidLine(s) && s.phase == SubDigits
    ensures var t := Next(s, ' ').0; ValidLine(t) && t == s.(phase := Letter, calcsum := t.calcsum)
  {
    hide InNumberOrSign, InFirstDigit, InAnotherDigit;
    NextInterprets(s, ' ');
  }

  // What a word has left behind.
  ghost predicate WordRead(s: Line, t: Line, letter: nat, n: int, whole: int)
    requires ValidLine(s) && letter < 26
  {
    && t.phase == Letter && t.numbers == s.numbers[letter := n] && t.integers == s.integers[letter := whole]
    && t.got == s.got + {letter}
  }

  lemma SinceMeans(s: Line, t: Line)
    requires Since(s, t) && t.letter in t.got
    ensures t.numbers == s.numbers[t.letter := t.numbers[t.letter]]
    ensures t.integers == s.integers[t.letter := t.integers[t.letter]] && t.got == s.got + {t.letter}
  {}

  lemma DecimalMeans(s: Line, t: Line, q: nat, digits: nat)
    requires Reading(s, t, false, q, digits, 0)
    ensures t.numbers == s.numbers[t.letter := q * 1000] && t.integers == s.integers[t.letter := q] && t.got == s.got + {t.letter}
  {
    TenNine();
    SinceMeans(s, t);
    WholeOfThousands(q, t.integers[t.letter]);
  }

  function IndexOf(c: char): nat
    requires IsLetter(c)
  {
    c as int - 'A' as int
  }

  // A letter and a whole number.
  lemma DecimalWord(s: Line, c: char, q: nat)
    requires ValidLine(s) && s.phase == Letter && IsLetter(c) && q * 1000 < LIMIT
    ensures WordRead(s, After(s, [c] + Decimal(q) + " "), IndexOf(c), q * 1000, q)
  {
    hide Next, After, Decimal, Expecting, Reading;
    AfterLetter(s, c, Decimal(q));
    ReadDecimal(s, Next(s, c).0, false, q);
    var t := After(s, [c] + Decimal(q));
    SpaceAfterDigits(s, t, false, q, |Decimal(q)|);
    AfterOne(s, [c] + Decimal(q), ' ');
    DecimalMeans(s, Next(t, ' ').0, q, |Decimal(q)|);
  }

  // A letter and a number with three decimals.
  lemma FixedWord(s: Line, c: char, negative: bool, k: nat) returns (whole: int)
    requires ValidLine(s) && s.phase == Letter && IsLetter(c) && k < LIMIT
    ensures WordRead(s, After(s, [c] + Signed(negative, k) + " "), IndexOf(c), WithSign(negative, k), whole)
    ensures IsWhole(WithSign(negative, k), whole)
  {
    hide Next, After, Thousandths, Expecting;
    AfterLetter(s, c, Signed(negative, k));
    var w := Next(s, c).0;
    if negative {
      AfterConcat(w, "-", Thousandths(k));
      assert "" + ['-'] == "-";
      AfterNone(w);
      AfterOne(w, "", '-');
      ReadMinus(s, w);
      ReadFixed(s, Next(w, '-').0, true, k);
    } else {
      ReadFixed(s, w, false, k);
    }
    var t := After(s, [c] + Signed(negative, k));
    ReadingMeans(s, t, negative, k, |Decimal(k / 1000)|, 3);
    SinceMeans(s, t);
    SpaceAfterPoint(t);
    AfterOne(s, [c] + Signed(negative, k), ' ');
    whole := t.integers[t.letter];
  }

  lemma WholeOfThousands(q: int, i: int)
    requires IsWhole(q * 1000, i)
    ensures i == q
  {}

  lemma AfterNone(s: Line)
    requires ValidLine(s)
    ensures After(s, "") == s
  {}

  // ---- No raster data before the '$' ----

  predicate InData(p: Phase) { p in {Sextet1, Sextet2, Sextet3, Sextet4} }

  lemma NoDataOne(s: Line, c: char)
    requires ValidLine(s) && s.phase != Start && !InData(s.phase) && c !in {'$', '\n'}
    ensures var t := Next(s, c).0; t.phase != Start && !InData(t.phase) && t.len == s.len
  {
    hide Interpret, XorByte;
    if c != '\r' && (c != '*' || s.phase == Error) {
      NoDataInText(Summed(s, c), c);
    }
  }

  lemma NoDataInText(s: Line, c: char)
    requires ValidLine(s) && s.phase != Start && !InData(s.phase) && c !in {'$', '\n'}
    ensures var t := Interpret(s, c).0; t.phase != Start && !InData(t.phase) && t.len == s.len
  {
    hide Store, Unsigned32, InSextet;
  }

  lemma {:induction false} NoData(s: Line, t: string)
    requires ValidLine(s) && s.phase != Start && !InData(s.phase) && '$' !in t && OneLine(t)
    ensures After(s, t).len == s.len
    decreases |t|
  {
    hide Next;
    if t != "" {
      NoDataOne(s, t[0]);
      NoData(Next(s, t[0]).0, t[1..]);
    }
  }

  // Digits, points, signs, letters and spaces.
  predicate Wordy(t: string) { '$' !in t && Plain(t) }

  lemma {:induction false} WordyDecimal(n: nat)
    ensures Wordy(Decimal(n))
  {
    if n >= 10 { WordyDecimal(n / 10); }
  }

  lemma {:induction false} WordyPadded(n: nat, k: nat)
    ensures Wordy(Padded(n, k))
  {
    if k > 0 { WordyPadded(n / 10, k - 1); }
  }

  lemma WordyPrefix(negative: bool, k: nat, n: nat)
    ensures Wordy(Prefix(negative, k, n))
  {
    WordyDecimal(k / 1000);
    WordyPadded(k, 3);
    WordyDecimal(n);
    hide Decimal, Padded;
  }

  // The words before the data: the parser is ready for these then, with 1 as
  // the command, the way as X and the number of pixels as Q.
  lemma PrefixIntroduces(negative: bool, k: nat, n: nat)
    requires k < LIMIT && n * 1000 < LIMIT
    ensures Introduces(Prefix(negative, k, n))
    ensures var e := Parsed(Prefix(negative, k, n));
      && e.got == {G, X, Q} && e.integers[G] == 1 && e.integers[Q] == n
      && e.numbers == Fresh().numbers[G := 1000][X := if negative then 0 - k else k][Q := n * 1000]
  {
    hide Next, After, Signed, Decimal, Fresh;
    FreshLine();
    var x, q := "X" + Signed(negative, k) + " ", "Q" + Decimal(n) + " ";
    var s0 := Fresh();
    assert Decimal(1) == "1" by { OneDigit(); }
    assert "G" + "1" + " " == "G1 ";
    DecimalWord(s0, 'G', 1);
    var s1 := After(s0, "G1 ");
    var whole := FixedWord(s1, 'X', negative, k);
    var s2 := After(s1, x);
    DecimalWord(s2, 'Q', n);
    AfterConcat(s0, "G1 ", x);
    AfterConcat(s0, "G1 " + x, q);
    var s3 := After(s2, q);
    assert s3 == Parsed(Prefix(negative, k, n));
    WordyPrefix(negative, k, n);
    NoData(s0, Prefix(negative, k, n));
    DollarIsNext(s3);
    AfterOne(s0, Prefix(negative, k, n), '$');
  }

  // The letters of the command, of the way in X and of the pulses.
  const G := 6
  const X := 23
  const Q := 16

  lemma FreshLine()
    ensures Fresh().phase == Letter && Fresh().len == 0 && Fresh().got == {}
  {}

  lemma OneDigit()
    ensures Decimal(1) == "1"
  {}
}
