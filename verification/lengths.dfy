// Integer square root, distances, and the conversions between steps and
// micrometres.
module Lengths {
  import opened Arithmetic
  import opened Bits

  const U64 := 0x1_0000_0000_0000_0000

  ghost predicate IsRoot(root: int, n: int) {
    0 <= root && root * root <= n < (root + 1) * (root + 1)
  }

  lemma RootIsUnique(a: int, b: int, n: int)
    requires IsRoot(a, n) && IsRoot(b, n)
    ensures a == b
  {
    if a < b {
      Squares(a + 1, b);
    } else if b < a {
      Squares(b + 1, a);
    }
  }

  // The digit b of the root that is tried next, and its square.
  ghost function Digit(k: int): int { if k < 0 then 0 else Pow2(k) }

  // With bit == b * b, res is 2 * r * b for the part r of the root that is
  // known, num is what is left of the square, and the rest of the root is
  // smaller than the next larger digit.
  ghost predicate Rooting(n: int, num: int, res: int, r: int, k: int) {
    && -1 <= k && 0 <= r && num == n - r * r && 0 <= num
    && if k < 0 then res == r && n < (r + 1) * (r + 1)
       else res == 2 * r * Pow2(k) && n < (r + 2 * Pow2(k)) * (r + 2 * Pow2(k)) && r + 2 * Pow2(k) <= U32
  }

  lemma NextBit(k: int)
    requires -1 <= k
    ensures k >= 0 ==> Digit(k) * Digit(k) / 4 == Digit(k - 1) * Digit(k - 1)
  {
    if k > 0 {
      var b := Pow2(k - 1);
      assert (2 * b) * (2 * b) == 4 * (b * b);
    }
  }

  lemma SumSquare(r: int, b: int)
    ensures (r + b) * (r + b) == r * r + 2 * r * b + b * b
  {}

  // Halving the digit doubles its number.
  lemma HalfDigit(r: int, b: int, h: int)
    requires b == 2 * h
    ensures 2 * r * h == r * b
    ensures (2 * r * b) / 2 == r * b
  {
    assert 2 * r * h == r * (2 * h);
    assert 2 * r * b == 2 * (r * b);
  }

  lemma DigitAdded(n: int, num: int, res: int, r: int, b: int, h: int)
    requires b == 2 * h && num == n - r * r && res == 2 * r * b
    requires n < (r + 2 * b) * (r + 2 * b)
    ensures res / 2 + b * b == 2 * (r + b) * h
    ensures num - (res + b * b) == n - (r + b) * (r + b)
    ensures n < (r + b + 2 * h) * (r + b + 2 * h)
  {
    SumSquare(r, b);
    HalfDigit(r, b, h);
    HalfDigit(r + b, b, h);
    assert (r + b) * b == r * b + b * b;
    assert r + b + 2 * h == r + 2 * b;
  }

  lemma DigitTaken(n: int, num: int, res: int, r: int, k: int)
    requires Rooting(n, num, res, r, k) && k >= 0
    requires num >= res + Pow2(k) * Pow2(k)
    ensures Rooting(n, num - (res + Pow2(k) * Pow2(k)), res / 2 + Pow2(k) * Pow2(k), r + Pow2(k), k - 1)
  {
    if k > 0 {
      DigitAdded(n, num, res, r, Pow2(k), Pow2(k - 1));
    } else {
      SumSquare(r, 1);
    }
  }

  lemma DigitSkipped(n: int, num: int, res: int, r: int, k: int)
    requires Rooting(n, num, res, r, k) && k >= 0
    requires num < res + Pow2(k) * Pow2(k)
    ensures Rooting(n, num, res / 2, r, k - 1)
  {
    var b := Pow2(k);
    SumSquare(r, b);
    if k > 0 {
      HalfDigit(r, b, Pow2(k - 1));
    }
  }

  lemma NoOverflow(n: int, num: int, res: int, r: int, k: int)
    requires Rooting(n, num, res, r, k) && k >= 0
    ensures 0 <= res + Pow2(k) * Pow2(k) < U64
    ensures 0 <= res / 2 + Pow2(k) * Pow2(k) < U64
  {
    SumBelow(r, Pow2(k));
  }

  lemma SumBelow(r: int, b: int)
    requires 0 <= r && 0 <= b && r + b < U32
    ensures 0 <= 2 * r * b && 0 <= b * b && 2 * r * b + b * b < U64
  {
    Squares(r + b, U32 - 1);
    SumSquare(r, b);
    assert 2 * r * b == 2 * (r * b);
  }

  // The largest power of four in 64 bits.
  lemma TopBit()
    ensures Pow2(31) == 0x8000_0000
  {
    Pow2Sum(8, 8);
    Pow2Sum(16, 15);
    Pow2Sum(8, 7);
    assert Pow2(4) == 16 && Pow2(7) == 8 * Pow2(4) && Pow2(8) == 16 * Pow2(4);
  }

  // The digit-by-digit method, within 64 bits throughout.
  method SqrtU64(n: int) returns (res: int)
    requires 0 <= n < U64
    ensures IsRoot(res, n) && res < U32
  {
    var num := n;
    res := 0;
    ghost var k;
    var bit;
    bit, k := FirstBit(num);
    ghost var r := 0;
    while bit != 0
      invariant -1 <= k && bit == Digit(k) * Digit(k)
      invariant Rooting(n, num, res, r, k)
      decreases k
    {
      NoOverflow(n, num, res, r, k);
      NextBit(k);
      if num >= res + bit {
        DigitTaken(n, num, res, r, k);
        num := num - (res + bit);
        res := res / 2 + bit;
        r := r + Pow2(k);
      } else {
        DigitSkipped(n, num, res, r, k);
        res := res / 2;
      }
      bit := bit / 4;
      k := k - 1;
    }
    RootFits(res, n);
  }

  // The highest power of four not above the number.
  method FirstBit(num: int) returns (bit: int, ghost k: int)
    requires 0 <= num < U64
    ensures -1 <= k && bit == Digit(k) * Digit(k)
    ensures Rooting(num, num, 0, 0, k)
  {
    bit, k := 0x4000_0000_0000_0000, 31;
    TopBit();
    while bit > num
      invariant -1 <= k <= 31 && bit == Digit(k) * Digit(k)
      invariant num < 4 * bit || (k < 0 && num == 0)
      decreases k
    {
      NextBit(k);
      bit := bit / 4;
      k := k - 1;
    }
    if k >= 0 {
      FirstDigit(num, k);
    }
  }

  lemma FirstDigit(num: int, k: int)
    requires 0 <= k <= 31 && 0 <= num < 4 * (Pow2(k) * Pow2(k))
    ensures Rooting(num, num, 0, 0, k)
  {
    var b := Pow2(k);
    TopBit();
    Pow2Grows(k, 31);
    FourSquares(b);
  }

  lemma FourSquares(b: int)
    ensures (0 + 2 * b) * (0 + 2 * b) == 4 * (b * b) && 2 * 0 * b == 0
  {}

  lemma {:induction false} Pow2Grows(a: nat, b: nat)
    requires a <= b
    ensures Pow2(a) <= Pow2(b)
    decreases b
  {
    if a < b {
      Pow2Grows(a, b - 1);
    }
  }

  lemma RootFits(root: int, n: int)
    requires IsRoot(root, n) && n < U64
    ensures root < U32
  {
    if root >= U32 {
      Squares(U32, root);
    }
  }

  // The floor of the Euclidean length.
  method Length2(x: int, y: int) returns (res: int)
    requires -0x8000_0000 <= x < 0x8000_0000 && -0x8000_0000 <= y < 0x8000_0000
    ensures IsRoot(res, x * x + y * y)
  {
    SquareFits(x);
    SquareFits(y);
    res := SqrtU64(x * x + y * y);
  }

  lemma SquareFits(x: int)
    requires -0x8000_0000 <= x <= 0x8000_0000
    ensures 0 <= x * x <= 0x4000_0000_0000_0000
  {
    Squares(if x < 0 then -x else x, 0x8000_0000);
  }

  // ---- Steps and micrometres ----

  const XY_STEPS_PER_M := 79_220
  const Z_STEPS_PER_M := 800_000
  const UM_PER_M := 1_000_000

  // C division truncates towards zero.
  function TruncDiv(a: int, b: int): int
    requires b > 0
  {
    if a >= 0 then a / b else -(-a / b)
  }

  function StepsToPosition(steps: int, perM: int): int
    requires perM > 0
  {
    TruncDiv(steps * UM_PER_M + perM / 2, perM)
  }

  function PositionToSteps(um: int, perM: int): int {
    TruncDiv(um * perM + UM_PER_M / 2, UM_PER_M)
  }

  // The micrometre next to a step, above zero; below it, one and a half away at
  // most.
  lemma NearestMicrometre(steps: int, perM: int)
    requires perM > 0
    ensures var off := 2 * (StepsToPosition(steps, perM) * perM - steps * UM_PER_M);
      if steps >= 0 then -perM < off <= perM else -perM <= off < 3 * perM
  {
    var n := steps * UM_PER_M + perM / 2;
    if n >= 0 {
      QuotientTimes(n, perM);
    } else {
      QuotientTimes(-n, perM);
      assert (-(-n / perM)) * perM == -(-n / perM * perM);
    }
    if steps >= 0 {
      assert n >= 0;
    }
  }

  lemma QuotientTimes(n: int, d: int)
    requires d > 0
    ensures n / d * d <= n < n / d * d + d
  {
    assert n == d * (n / d) + n % d;
  }

  // A position that is converted back and forth stays where it is, on every
  // axis, exactly when it is not negative: below zero the truncation rounds
  // towards the origin, and a step is lost.
  lemma RoundTrip(steps: int)
    ensures PositionToSteps(StepsToPosition(steps, XY_STEPS_PER_M), XY_STEPS_PER_M) == steps <==> steps >= 0
    ensures PositionToSteps(StepsToPosition(steps, Z_STEPS_PER_M), Z_STEPS_PER_M) == steps <==> steps >= 0
  {}

  // ---- Destinations ----

  // A word of a move: an amount in thousandths of a millimetre, or of an inch.
  datatype Word = Word(number: int, inch: bool, relative: bool)

  function InMicrometres(w: Word): int {
    if w.inch then TruncDiv(127 * w.number, 5) else w.number
  }

  // The destination of an axis after a move, and after a sequence of them.
  function Destination(from: int, w: Word): int {
    if w.relative then from + InMicrometres(w) else InMicrometres(w)
  }

  function Travel(from: int, words: seq<Word>): int
    decreases |words|
  {
    if words == [] then from else Travel(Destination(from, words[0]), words[1..])
  }

  // What a sequence of relative moves adds up to.
  function Sum(words: seq<Word>): int {
    if words == [] then 0 else InMicrometres(words[0]) + Sum(words[1..])
  }

  // Relative moves add up exactly, however many they are.
  lemma {:induction false} RelativeMovesAddUp(from: int, words: seq<Word>)
    requires forall w :: w in words ==> w.relative
    ensures Travel(from, words) == from + Sum(words)
    decreases |words|
  {
    if words != [] {
      RelativeMovesAddUp(Destination(from, words[0]), words[1..]);
    }
  }

  // An inch is 25.4 millimetres; less than a micrometre is cut off.
  lemma InchesAreCut(w: Word)
    ensures w.inch ==>
      var rest := 254 * w.number - 10 * InMicrometres(w); if w.number >= 0 then 0 <= rest < 10 else -10 < rest <= 0
    ensures !w.inch ==> InMicrometres(w) == w.number
  {}

  lemma {:induction false} TravelConcat(from: int, a: seq<Word>, b: seq<Word>)
    ensures Travel(from, a + b) == Travel(Travel(from, a), b)
    decreases |a|
  {
    if a == [] {
      assert a + b == b;
    } else {
      assert (a + b)[1..] == a[1..] + b;
      TravelConcat(Destination(from, a[0]), a[1..], b);
    }
  }

  // Whatever was before the last absolute word of an axis, the destination is
  // that and the relative words since.
  lemma LastAbsoluteCounts(from: int, before: seq<Word>, w: Word, since: seq<Word>)
    requires !w.relative && forall r :: r in since ==> r.relative
    ensures Travel(from, before + ([w] + since)) == InMicrometres(w) + Sum(since)
  {
    TravelConcat(from, before, [w] + since);
    assert ([w] + since)[0] == w && ([w] + since)[1..] == since;
    RelativeMovesAddUp(InMicrometres(w), since);
  }
}
