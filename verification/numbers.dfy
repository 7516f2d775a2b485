// A number that is printed is read back as the same number.
module Numbers {
  import opened Arithmetic
  import opened GcodeLine
  import opened ParsedLines
  import opened Printer

  const LIMIT := 0x8000_0000

  function WithSign(negative: bool, n: nat): int { if negative then 0 - n else n }

  // Scaling is exact as long as the result has 31 bits.
  lemma {:induction false} ScaledFits(n: nat, subdigits: nat)
    requires subdigits <= SCALE_DIGITS && n * Ten(SCALE_DIGITS - subdigits) < LIMIT
    ensures Scaled(n, subdigits) == Some(n * Ten(SCALE_DIGITS - subdigits))
    decreases SCALE_DIGITS - subdigits
  {
    if subdigits < SCALE_DIGITS {
      var p := Ten(SCALE_DIGITS - subdigits - 1);
      assert n * (10 * p) == (n * 10) * p;
      if n > 0 { Monotone(n * 10, 1, p); }
      ScaledFits(n * 10, subdigits + 1);
    }
  }

  lemma {:induction false} ScaledRange(n: int, subdigits: nat)
    requires subdigits <= SCALE_DIGITS && -LIMIT <= n < LIMIT
    ensures var r := Scaled(n, subdigits); r.Some? ==> -LIMIT <= r.value < LIMIT
    decreases SCALE_DIGITS - subdigits
  {
    if subdigits < SCALE_DIGITS && n <= 429496729 {
      ScaledRange(Signed32(n * 10), subdigits + 1);
    }
  }

  // Exactly then; a larger number is not always rejected.
  lemma ScaledIsExact(n: nat, subdigits: nat)
    requires subdigits <= SCALE_DIGITS && n < LIMIT
    ensures Scaled(n, subdigits) == Some(n * Ten(SCALE_DIGITS - subdigits)) <==> n * Ten(SCALE_DIGITS - subdigits) < LIMIT
  {
    ScaledRange(n, subdigits);
    if n * Ten(SCALE_DIGITS - subdigits) < LIMIT {
      ScaledFits(n, subdigits);
    }
  }

  // A step of it is refused exactly if its result does not fit 32 bits without a
  // sign.
  lemma ScalingIsRefused(n: int, subdigits: nat)
    requires subdigits < SCALE_DIGITS && n < LIMIT
    ensures Scaled(n, subdigits) == None <==> 10 * n >= 0x1_0000_0000 || Scaled(Signed32(10 * n), subdigits + 1) == None
    ensures subdigits == 2 ==> (Scaled(n, subdigits) == None <==> 10 * n >= 0x1_0000_0000)
  {}

  // The first one that is not: 2147484 becomes a negative number.
  lemma OverflowUnnoticed()
    ensures Scaled(2147484, 0) == Some(-2147483296)
  {
    assert Scaled(214748400, 2) == Scaled(-2147483296, 3);
    assert Scaled(21474840, 1) == Scaled(214748400, 2);
  }

  // The whole part of a number of thousandths: what is left over is less than
  // one, and has the sign of the number.
  predicate IsWhole(n: int, i: int) {
    if n >= 0 then 0 <= n - 1000 * i < 1000 else -1000 < n - 1000 * i <= 0
  }

  // The state s belongs to a word that began in state s0.
  ghost predicate Since(s0: Line, s: Line) {
    && ValidLine(s0) && ValidLine(s) && s.got + {s.letter} == s0.got + {s.letter} && s.codes == s0.codes + {s.letter}
    && forall i :: 0 <= i < 26 && i != s.letter ==> s.numbers[i] == s0.numbers[i] && s.integers[i] == s0.integers[i]
  }

  // It has read m as the number of the word, with so many digits after the
  // point.
  ghost predicate Reading(s0: Line, s: Line, negative: bool, m: nat, digits: nat, subdigits: nat) {
    && Since(s0, s) && s.negative == negative && s.letter in s.got
    && s.current == m && s.digits == digits && s.subdigits == subdigits <= SCALE_DIGITS
    && s.numbers[s.letter] == WithSign(negative, m * Ten(SCALE_DIGITS - subdigits))
    && IsWhole(s.numbers[s.letter], s.integers[s.letter])
  }

  // It is about to read the first digit of it.
  ghost predicate Expecting(s0: Line, s: Line, negative: bool) {
    && Since(s0, s)
    && ((s.phase == FirstDigit && s.negative == negative && s.subdigits == 0) || (s.phase == NumberOrSign && !negative))
  }

  ghost predicate Storable(s: Line, negative: bool, m: nat, digits: nat, subdigits: nat) {
    && ValidLine(s) && s.phase != Start && s.phase != BadChecksum && s.negative == negative
    && s.current == m && s.digits == digits && s.subdigits == subdigits && m * Ten(SCALE_DIGITS - subdigits) < LIMIT
  }

  lemma StoreFits(s: Line, negative: bool, m: nat, digits: nat, subdigits: nat)
    requires Storable(s, negative, m, digits, subdigits)
    ensures var t := Store(s).0;
      && t.numbers == s.numbers[s.letter := WithSign(negative, m * Ten(SCALE_DIGITS - subdigits))]
      && t == s.(numbers := t.numbers, integers := s.integers[s.letter := t.integers[s.letter]], got := s.got + {s.letter})
      && IsWhole(t.numbers[s.letter], t.integers[s.letter])
  {
    ScaledFits(m, subdigits);
    if m > 0 { Monotone(m, 1, Ten(SCALE_DIGITS - subdigits)); }
  }

  lemma StoreReads(s0: Line, s: Line, v: Line, negative: bool, m: nat, digits: nat, subdigits: nat)
    requires Since(s0, s) && v.letter == s.letter && v.numbers == s.numbers && v.integers == s.integers && v.got == s.got && v.codes == s.codes
    requires Storable(v, negative, m, digits, subdigits)
    ensures var t := Store(v).0;
      Reading(s0, t, negative, m, digits, subdigits) && t.phase == v.phase && t.letter == s.letter
  {
    StoreFits(v, negative, m, digits, subdigits);
  }

  // Within a line, a character is interpreted according to the phase.
  lemma NextInterprets(s: Line, c: char)
    requires ValidLine(s) && s.phase in {NumberOrSign, FirstDigit, AnotherDigit, SubDigits} && c !in {'\r', '\n', '*'}
    ensures var u := Summed(s, c);
      && u == s.(calcsum := u.calcsum) && ValidLine(u)
      && Next(s, c) ==
        if s.phase == NumberOrSign then InNumberOrSign(u, c) else if s.phase == FirstDigit then InFirstDigit(u, c)
        else if s.phase == AnotherDigit then InAnotherDigit(u, c) else InSubDigits(u, c)
  {
    hide InLetter, InNumberOrSign, InFirstDigit, InAnotherDigit, InSubDigits, InSextet, InChecksum, InName;
  }

  lemma FirstDigitStored(u: Line, negative: bool, d: nat)
    requires Expecting(u, u, negative) && d < 10
    ensures (if u.phase == NumberOrSign then InNumberOrSign(u, Digit(d)) else InFirstDigit(u, Digit(d)))
      == Store(u.(current := d, digits := 1, subdigits := 0, negative := negative, phase := AnotherDigit))
  {
    hide Store;
  }

  lemma DigitStored(u: Line, d: nat, n: nat)
    requires ValidLine(u) && u.phase == AnotherDigit && u.digits <= 9 && d < 10 && n == 10 * u.current + d < U32
    ensures InAnotherDigit(u, Digit(d)) == Store(u.(current := n, digits := u.digits + 1))
  {
    hide Store, Unsigned32;
  }

  lemma SubdigitStored(u: Line, d: nat)
    requires ValidLine(u) && u.phase == SubDigits && u.subdigits < SCALE_DIGITS && u.digits + u.subdigits <= 9
    requires d < 10 && 10 * u.current + d < U32
    ensures InSubDigits(u, Digit(d)) == Store(u.(current := 10 * u.current + d, subdigits := u.subdigits + 1))
  {
    hide Store, Unsigned32;
  }

  lemma ReadFirstDigit(s0: Line, s: Line, negative: bool, d: nat)
    requires Expecting(s0, s, negative) && d < 10
    ensures var t := Next(s, Digit(d)).0;
      Reading(s0, t, negative, d, 1, 0) && t.phase == AnotherDigit && t.letter == s.letter
  {
    hide Next, Store, InNumberOrSign, InFirstDigit, InAnotherDigit, InSubDigits, Summed;
    TenNine();
    NextInterprets(s, Digit(d));
    var u := Summed(s, Digit(d));
    FirstDigitStored(u, negative, d);
    StoreReads(s0, s, u.(current := d, digits := 1, subdigits := 0, negative := negative, phase := AnotherDigit), negative, d, 1, 0);
  }

  lemma IsReading(s0: Line, s: Line, negative: bool, m: nat, digits: nat, subdigits: nat)
    requires Reading(s0, s, negative, m, digits, subdigits)
    ensures Since(s0, s) && ValidLine(s) && s.negative == negative
    ensures s.current == m && s.digits == digits && s.subdigits == subdigits
  {}

  lemma StillValid(u: Line, current: nat, digits: nat, subdigits: nat)
    requires ValidLine(u) && u.phase in {AnotherDigit, SubDigits}
    requires current < U32 && digits <= 10 && subdigits <= SCALE_DIGITS
    ensures ValidLine(u.(current := current, digits := digits, subdigits := subdigits))
  {}

  lemma ReadDigit(s0: Line, s: Line, negative: bool, m: nat, digits: nat, d: nat, n: nat)
    requires Reading(s0, s, negative, m, digits, 0) && s.phase == AnotherDigit && digits <= 9
    requires d < 10 && n == 10 * m + d && n * 1000 < LIMIT
    ensures var t := Next(s, Digit(d)).0;
      Reading(s0, t, negative, n, digits + 1, 0) && t.phase == AnotherDigit && t.letter == s.letter
  {
    hide Next, Store, Ten, Since, Reading, ValidLine;
    assert n * Ten(SCALE_DIGITS) < LIMIT by { TenNine(); }
    IsReading(s0, s, negative, m, digits, 0);
    var v := DigitIsStored(s, d, n);
    StoreReads(s0, s, v, negative, n, digits + 1, 0);
  }

  lemma DigitIsStored(s: Line, d: nat, n: nat) returns (v: Line)
    requires ValidLine(s) && s.phase == AnotherDigit && s.digits <= 9 && s.subdigits <= SCALE_DIGITS
    requires d < 10 && n == 10 * s.current + d < U32
    ensures v == s.(current := n, digits := s.digits + 1, calcsum := v.calcsum) && ValidLine(v)
    ensures Next(s, Digit(d)) == Store(v)
  {
    hide Next, Store, InNumberOrSign, InFirstDigit, InAnotherDigit, InSubDigits, Summed, ValidLine;
    NextInterprets(s, Digit(d));
    var u := Summed(s, Digit(d));
    DigitStored(u, d, n);
    v := u.(current := n, digits := s.digits + 1);
    StillValid(u, n, s.digits + 1, u.subdigits);
  }

  lemma ReadPoint(s0: Line, s: Line, negative: bool, m: nat, digits: nat)
    requires Reading(s0, s, negative, m, digits, 0) && s.phase == AnotherDigit && m * 1000 < LIMIT
    ensures var t := Next(s, '.').0;
      Reading(s0, t, negative, m, digits, 0) && t.phase == SubDigits && t.letter == s.letter
  {
    hide Next, Store, InNumberOrSign, InFirstDigit, InSubDigits, Summed;
    TenNine();
    NextInterprets(s, '.');
    var v := Summed(s, '.').(phase := SubDigits);
    assert InAnotherDigit(Summed(s, '.'), '.') == Store(v);
    StoreReads(s0, s, v, negative, m, digits, 0);
  }

  lemma ReadSubdigit(s0: Line, s: Line, negative: bool, m: nat, digits: nat, subdigits: nat, d: nat, n: nat)
    requires Reading(s0, s, negative, m, digits, subdigits) && s.phase == SubDigits
    requires subdigits < SCALE_DIGITS && digits + subdigits <= 9
    requires d < 10 && n == 10 * m + d < LIMIT && n * Ten(SCALE_DIGITS - (subdigits + 1)) < LIMIT
    ensures var t := Next(s, Digit(d)).0;
      Reading(s0, t, negative, n, digits, subdigits + 1) && t.phase == SubDigits && t.letter == s.letter
  {
    hide Next, Store, InNumberOrSign, InFirstDigit, InAnotherDigit, InSubDigits, Summed, Ten, Since, Reading, ValidLine;
    IsReading(s0, s, negative, m, digits, subdigits);
    NextInterprets(s, Digit(d));
    var u := Summed(s, Digit(d));
    SubdigitStored(u, d);
    StillValid(u, n, digits, subdigits + 1);
    StoreReads(s0, s, u.(current := n, subdigits := subdigits + 1), negative, n, digits, subdigits + 1);
  }

  // All digits before the point.
  lemma {:induction false} ReadDecimal(s0: Line, s: Line, negative: bool, q: nat)
    requires Expecting(s0, s, negative) && q * 1000 < LIMIT
    ensures var t := After(s, Decimal(q));
      Reading(s0, t, negative, q, |Decimal(q)|, 0) && t.phase == AnotherDigit && t.letter == s.letter
    ensures |Decimal(q)| <= 7
  {
    SevenPlaces(q);
    if q < 10 {
      assert Decimal(q) == "" + [Digit(q)];
      AfterOne(s, "", Digit(q));
      ReadFirstDigit(s0, s, negative, q);
    } else {
      ReadDecimal(s0, s, negative, q / 10);
      AfterOne(s, Decimal(q / 10), Digit(q % 10));
      ReadDigit(s0, After(s, Decimal(q / 10)), negative, q / 10, |Decimal(q / 10)|, q % 10, q);
    }
  }

  lemma SevenPlaces(q: nat)
    requires q * 1000 < LIMIT
    ensures |Decimal(q)| <= 7
  {
    TenNine();
    assert Ten(7) == 10_000 * Ten(3);
    DecimalLength(q, 7);
  }

  // A number without its last k digits.
  function Shifted(n: nat, k: nat): nat { if k == 0 then n else Shifted(n / 10, k - 1) }

  // And the digits behind it.
  lemma {:induction false} ReadPadded(s0: Line, s: Line, negative: bool, n: nat, digits: nat, k: nat)
    requires k <= SCALE_DIGITS && digits <= 7 && n * Ten(SCALE_DIGITS - k) < LIMIT
    requires Reading(s0, s, negative, Shifted(n, k), digits, 0) && s.phase == SubDigits
    ensures var t := After(s, Padded(n, k));
      Reading(s0, t, negative, n, digits, k) && t.phase == SubDigits && t.letter == s.letter
  {
    if k > 0 {
      assert ValidLine(s);
      TensOf(n, Ten(SCALE_DIGITS - k));
      assert Padded(n, k) == Padded(n / 10, k - 1) + [Digit(n % 10)];
      ReadPadded(s0, s, negative, n / 10, digits, k - 1);
      hide Next, Reading, After, Ten;
      AfterOne(s, Padded(n / 10, k - 1), Digit(n % 10));
      ReadSubdigit(s0, After(s, Padded(n / 10, k - 1)), negative, n / 10, digits, k - 1, n % 10, n);
    }
  }

  lemma TensOf(n: nat, p: nat)
    requires p > 0
    ensures n / 10 * (10 * p) <= n * p && n <= n * p
  {
    var q := n / 10;
    assert q * (10 * p) == (10 * q) * p;
    Monotone(p, 10 * q, n);
    if n > 0 { Monotone(n, 1, p); }
  }

  lemma ReadThousandths(s0: Line, s: Line, negative: bool, n: nat, digits: nat)
    requires Reading(s0, s, negative, n / 1000, digits, 0) && s.phase == SubDigits && digits <= 7 && n < LIMIT
    ensures var t := After(s, Padded(n, 3));
      Reading(s0, t, negative, n, digits, 3) && t.phase == SubDigits && t.letter == s.letter
  {
    assert Ten(0) == 1;
    assert Shifted(n, 3) == Shifted(n / 10, 2) == Shifted(n / 10 / 10, 1) == n / 10 / 10 / 10 == n / 1000;
    hide Reading, After, Padded;
    ReadPadded(s0, s, negative, n, digits, 3);
  }

  lemma ReadFixed(s0: Line, s: Line, negative: bool, n: nat)
    requires Expecting(s0, s, negative) && n < LIMIT
    ensures var t := After(s, Thousandths(n));
      Reading(s0, t, negative, n, |Decimal(n / 1000)|, 3) && t.phase == SubDigits && t.letter == s.letter
  {
    var q := Decimal(n / 1000);
    ReadDecimal(s0, s, negative, n / 1000);
    AfterConcat(s, q + ".", Padded(n, 3));
    AfterOne(s, q, '.');
    ReadPoint(s0, After(s, q), negative, n / 1000, |q|);
    ReadThousandths(s0, After(s, q + "."), negative, n, |q|);
  }

  lemma LetterBegins(s: Line, c: char)
    requires ValidLine(s) && s.phase == Letter && IsLetter(c)
    ensures var t, letter := Next(s, c).0, c as int - 'A' as int;
      t == s.(phase := NumberOrSign, letter := letter, codes := s.codes + {letter}, calcsum := t.calcsum)
  {
    hide InNumberOrSign, InFirstDigit, InAnotherDigit, InSubDigits, InSextet, InChecksum, InName;
  }

  lemma BeginWord(s: Line, c: char)
    requires ValidLine(s) && s.phase == Letter && IsLetter(c)
    ensures var t := Next(s, c).0;
      Expecting(s, t, false) && t.phase == NumberOrSign && t.letter == c as int - 'A' as int
  {
    LetterBegins(s, c);
    hide Next;
  }

  lemma ReadMinus(s0: Line, s: Line)
    requires Expecting(s0, s, false) && s.phase == NumberOrSign
    ensures Expecting(s0, Next(s, '-').0, true) && Next(s, '-').0.letter == s.letter
  {
    assert Next(s, '-') == InNumberOrSign(Summed(s, '-'), '-');
  }

  lemma ReadingMeans(s0: Line, t: Line, negative: bool, n: nat, digits: nat, subdigits: nat)
    requires Reading(s0, t, negative, n, digits, subdigits) && (subdigits == 3 || n == 0)
    ensures Since(s0, t) && t.letter in t.got
    ensures t.numbers[t.letter] == WithSign(negative, n) && IsWhole(t.numbers[t.letter], t.integers[t.letter])
  {
    assert Ten(0) == 1;
  }

  lemma ReadNegative(s0: Line, s: Line, m: nat)
    requires Expecting(s0, s, false) && s.phase == NumberOrSign && m < LIMIT
    ensures var t := After(s, "-" + Thousandths(m));
      && Since(s0, t) && t.letter == s.letter && t.letter in t.got
      && t.numbers[t.letter] == WithSign(true, m) && IsWhole(t.numbers[t.letter], t.integers[t.letter])
  {
    assert ValidLine(s);
    hide Next, Padded, Thousandths, Reading, Expecting, Since, ValidLine;
    AfterConcat(s, "-", Thousandths(m));
    assert "" + ['-'] == "-";
    AfterOne(s, "", '-');
    ReadMinus(s0, s);
    ReadFixed(s0, Next(s, '-').0, true, m);
    ReadingMeans(s0, After(Next(s, '-').0, Thousandths(m)), true, m, |Decimal(m / 1000)|, 3);
  }

  // Signs and zeros included.
  lemma ReadNumber(s0: Line, s: Line, n: int)
    requires Expecting(s0, s, false) && s.phase == NumberOrSign && -LIMIT < n < LIMIT
    ensures var t := After(s, NumberText(n));
      && Since(s0, t) && t.letter == s.letter && t.letter in t.got
      && t.numbers[t.letter] == n && IsWhole(n, t.integers[t.letter])
  {
    assert ValidLine(s);
    hide Next, Padded, Thousandths, Reading, Expecting, Since, ValidLine;
    if n == 0 {
      assert NumberText(0) == "" + [Digit(0)];
      AfterOne(s, "", Digit(0));
      ReadFirstDigit(s0, s, false, 0);
      ReadingMeans(s0, Next(s, Digit(0)).0, false, 0, 1, 0);
    } else if n > 0 {
      ReadFixed(s0, s, false, n);
      ReadingMeans(s0, After(s, Thousandths(n)), false, n, |Decimal(n / 1000)|, 3);
    } else {
      ReadNegative(s0, s, -n);
    }
  }

  lemma AfterLetter(s: Line, c: char, text: string)
    requires ValidLine(s) && s.phase == Letter && IsLetter(c)
    ensures var w := Next(s, c).0;
      && After(s, [c] + text) == After(w, text)
      && Expecting(s, w, false) && w.phase == NumberOrSign && w.letter == c as int - 'A' as int
  {
    BeginWord(s, c);
    hide Next, Expecting;
    AfterConcat(s, [c], text);
    assert "" + [c] == [c];
    AfterOne(s, "", c);
  }

  // A letter and a number as it is printed: the parser stores that number for
  // that letter, and its whole part beside it, and changes none of the others.
  lemma ReadWord(s: Line, c: char, n: int)
    requires ValidLine(s) && s.phase == Letter && 'A' <= c <= 'Z' && -LIMIT < n < LIMIT
    ensures var t := After(s, [c] + NumberText(n));
      var letter := c as int - 'A' as int;
      && t.numbers == s.numbers[letter := n] && t.got == s.got + {letter} && t.codes == s.codes + {letter}
      && (forall i :: 0 <= i < 26 && i != letter ==> t.integers[i] == s.integers[i])
      && (if n >= 0 then 0 <= n - 1000 * t.integers[letter] < 1000 else -1000 < n - 1000 * t.integers[letter] <= 0)
  {
    hide Next, After;
    AfterLetter(s, c, NumberText(n));
    ReadNumber(s, Next(s, c).0, n);
  }

  // The one number of 32 bits that is not read back.
  method PrintAndRead(s: Line, c: char, n: int) returns (text: string, number: int)
    requires ValidLine(s) && s.phase == Letter && IsLetter(c) && -LIMIT <= n < LIMIT
    ensures text == if n == -LIMIT then "-0.000" else NumberText(n)
    ensures number == After(s, [c] + text).numbers[c as int - 'A' as int]
    ensures number == n <==> n != -LIMIT
  {
    text := PrintNumber(n);
    number := After(s, [c] + text).numbers[c as int - 'A' as int];
    if n == -LIMIT {
      ReadMinusZero(s, c);
    } else {
      ReadWord(s, c, n);
    }
  }

  lemma ZeroText()
    ensures "-" + Thousandths(0) == "-0.000"
  {
    assert Padded(0, 3) == Padded(0, 2) + "0" == Padded(0, 1) + "0" + "0" == "000";
  }

  lemma ReadMinusZero(s: Line, c: char)
    requires ValidLine(s) && s.phase == Letter && IsLetter(c)
    ensures After(s, [c] + "-0.000").numbers[c as int - 'A' as int] == 0
  {
    hide Next, After, ValidLine;
    ZeroText();
    AfterLetter(s, c, "-0.000");
    ReadNegative(s, Next(s, c).0, 0);
  }
}
