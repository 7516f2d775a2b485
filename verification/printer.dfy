// Decimal numbers, and the routines that print them.
module Printer {
  import opened Arithmetic
  import opened GcodeLine

  function Ten(k: nat): (p: nat)
    ensures p > 0
  {
    if k == 0 then 1 else 10 * Ten(k - 1)
  }

  function Digit(d: nat): (c: char)
    requires d < 10
    ensures IsDigit(c) && DigitValue(c) == d
  {
    '0' + d as char
  }

  // Without leading zeros.
  function Decimal(n: nat): (s: string)
    ensures s != ""
  {
    if n < 10 then [Digit(n)] else Decimal(n / 10) + [Digit(n % 10)]
  }

  // The last k digits.
  function Padded(n: nat, k: nat): (s: string)
    ensures |s| == k
  {
    if k == 0 then "" else Padded(n / 10, k - 1) + [Digit(n % 10)]
  }

  // Thousandths, with a point.
  function Thousandths(n: nat): string { Decimal(n / 1000) + "." + Padded(n, 3) }

  function NumberText(n: int): string {
    if n == 0 then "0" else if n < 0 then "-" + Thousandths(-n) else Thousandths(n)
  }

  // What the digits of a text stand for.
  function Read(s: string): nat {
    if s == "" then 0 else 10 * Read(s[..|s| - 1]) + DigitValue(s[|s| - 1])
  }

  predicate AllDigits(s: string) { forall i :: 0 <= i < |s| ==> IsDigit(s[i]) }

  lemma ReadOne(s: string, c: char)
    ensures Read(s + [c]) == 10 * Read(s) + DigitValue(c)
    ensures AllDigits(s) && IsDigit(c) ==> AllDigits(s + [c])
  {
    assert (s + [c])[..|s|] == s;
  }

  lemma {:induction false} DecimalIsRead(n: nat)
    ensures Read(Decimal(n)) == n && AllDigits(Decimal(n))
  {
    if n < 10 {
      ReadOne("", Digit(n));
      assert "" + [Digit(n)] == [Digit(n)];
    } else {
      DecimalIsRead(n / 10);
      ReadOne(Decimal(n / 10), Digit(n % 10));
    }
  }

  lemma {:induction false} DecimalLength(n: nat, k: nat)
    requires k > 0
    ensures |Decimal(n)| <= k <==> n < Ten(k)
  {
    if n >= 10 {
      if k > 1 {
        DecimalLength(n / 10, k - 1);
      } else {
        assert Ten(1) == 10 * Ten(0);
      }
    } else {
      TenGrows(1, k);
    }
  }

  lemma {:induction false} TenGrows(a: nat, b: nat)
    requires a <= b
    ensures Ten(a) <= Ten(b)
    decreases b
  {
    if a < b {
      TenGrows(a, b - 1);
    }
  }

  // The digits one by one, from the front.
  lemma {:induction false} FirstDigitOf(n: nat, d: nat, r: nat, k: nat)
    requires n == d * Ten(k) + r && r < Ten(k) && d < 10
    ensures Padded(n, k + 1) == [Digit(d)] + Padded(r, k)
  {
    if k == 0 {
      assert n == d && Padded(n, 1) == Padded(n / 10, 0) + [Digit(n % 10)];
    } else {
      DropDigit(n, d, r, Ten(k - 1));
      FirstDigitOf(n / 10, d, r / 10, k - 1);
      assert Padded(n, k + 1) == Padded(n / 10, k) + [Digit(n % 10)];
    }
  }

  lemma DropDigit(n: nat, d: nat, r: nat, p: nat)
    requires n == d * (10 * p) + r
    ensures n / 10 == d * p + r / 10 && n % 10 == r % 10
  {
    assert d * (10 * p) == 10 * (d * p);
  }

  lemma {:induction false} PaddedIsDecimal(n: nat, k: nat)
    requires n < Ten(k + 1) && (k > 0 ==> Ten(k) <= n)
    ensures Padded(n, k + 1) == Decimal(n)
  {
    if k == 0 {
      assert Padded(n, 1) == Padded(n / 10, 0) + [Digit(n % 10)];
    } else {
      PaddedIsDecimal(n / 10, k - 1);
    }
  }

  lemma {:induction false} PaddedTail(n: nat, k: nat, j: nat)
    ensures Padded(n, k + j) == Padded(Quotient(n, Ten(j)), k) + Padded(n, j)
  {
    if j == 0 {
      assert Quotient(n, 1) == n;
    } else {
      PaddedTail(n / 10, k, j - 1);
      DivTwice(n, Ten(j - 1));
    }
  }

  lemma DivTwice(n: nat, p: nat)
    requires p > 0
    ensures Quotient(n / 10, p) == Quotient(n, 10 * p)
  {
    var q := n / 10;
    assert n == 10 * (p * (q / p) + q % p) + n % 10;
    assert 10 * (p * (q / p)) == (10 * p) * (q / p);
    DivMod(n, 10 * p, q / p, 10 * (q % p) + n % 10);
  }

  // One digit: how often the divider can be subtracted.
  method DivideOff(value: nat, divider: nat) returns (i: char, rest: nat, ghost d: nat)
    requires divider > 0 && value < 10 * divider
    ensures d < 10 && i == Digit(d) && value == d * divider + rest && rest < divider
  {
    rest := value;
    d := 0;
    i := '0';
    while rest >= divider
      invariant value == d * divider + rest && d < 10
      invariant i == Digit(d)
      decreases rest
    {
      OneMore(d, divider, value);
      rest := rest - divider;
      d := d + 1;
      i := i + 1 as char;
    }
  }

  lemma OneMore(d: nat, divider: nat, value: nat)
    requires d * divider + divider <= value < 10 * divider
    ensures (d + 1) * divider == d * divider + divider && d + 1 < 10
  {
    if d >= 9 {
      Monotone(divider, 10, d + 1);
    }
  }

  // The powers of ten, and 0 after the last one.
  ghost function Divider(k: int): int { if k < 0 then 0 else Ten(k) }

  // The digits from the given power of ten on.
  ghost function Rest(value: nat, k: int): string { if k < 0 then "" else Padded(value, k + 1) }

  lemma NextDivider(k: nat)
    ensures Ten(k) / 10 == Divider(k - 1)
  {}

  // Print the leading digit.
  method LeadingDigit(out: string, value: nat, divider: nat, ghost k: nat) returns (out': string, value': nat, divider': nat)
    requires divider == Ten(k) && value < Ten(k + 1)
    ensures out' == out + Padded(value, k + 1)[..1] && Padded(value, k + 1)[1..] == Rest(value', k - 1)
    ensures divider' == Divider(k - 1) && value' < Ten(k)
  {
    var i;
    ghost var d;
    i, value', d := DivideOff(value, divider);
    out' := out + [i];
    divider' := divider / 10;
    FirstDigitOf(value, d, value', k);
    NextDivider(k);
  }

  // _U
  method PrintUnsigned(n: nat) returns (out: string)
    requires n < U32
    ensures out == Decimal(n)
  {
    if n == 0 {
      return "0";
    }
    var value: nat := n;
    var divider: nat := 1_000_000_000;
    ghost var k: int := 9;
    TenNine();
    while divider > value
      invariant 0 <= k <= 9 && divider == Ten(k) && 0 < value < Ten(k + 1)
      decreases k
    {
      NextDivider(k);
      divider := divider / 10;
      k := k - 1;
    }
    PaddedIsDecimal(n, k);
    out := PrintFrom(n, divider, k);
  }

  // All digits from the given power of ten on.
  method PrintFrom(n: nat, divider: nat, ghost k: nat) returns (out: string)
    requires divider == Ten(k) && n < Ten(k + 1)
    ensures out == Padded(n, k + 1)
  {
    hide Padded, Ten;
    out := "";
    var value: nat, d: nat := n, divider;
    ghost var j: int := k;
    while d != 0
      invariant -1 <= j && d == Divider(j) && (j >= 0 ==> value < Ten(j + 1))
      invariant out + Rest(value, j) == Padded(n, k + 1)
      decreases j
    {
      assert j >= 0;
      ghost var before, digits := out, Padded(value, j + 1);
      assert before + digits == before + digits[..1] + digits[1..];
      out, value, d := LeadingDigit(out, value, d, j);
      j := j - 1;
    }
  }

  lemma TenNine()
    ensures Ten(9) == 1_000_000_000 && Ten(3) == 1000 && Ten(10) == 10_000_000_000
  {
    assert Ten(3) == 1000 && Ten(6) == 1000 * Ten(3) && Ten(9) == 1000 * Ten(6);
  }

  // What is left to print of a number with a point, from a power of ten on.
  ghost function RestWithPoint(value: nat, k: int): string {
    if k < 3 then Rest(value, k) else Padded(value / 1000, k - 2) + "." + Padded(value, 3)
  }

  lemma ThousandthsFrom(n: nat, k: nat)
    requires 3 <= k && n < Ten(k + 1) && (k > 3 ==> Ten(k) <= n)
    ensures RestWithPoint(n, k) == Thousandths(n)
  {
    TenSplit(n, k);
    PaddedIsDecimal(n / 1000, k - 3);
  }

  lemma {:induction false} TenSum(a: nat, b: nat)
    ensures Ten(a + b) == Ten(a) * Ten(b)
  {
    if a > 0 {
      TenSum(a - 1, b);
      assert Ten(a) * Ten(b) == 10 * (Ten(a - 1) * Ten(b));
    }
  }

  lemma TenSplit(n: nat, k: nat)
    requires 3 <= k && n < Ten(k + 1)
    ensures n / 1000 < Ten(k - 2) && (Ten(k) <= n ==> Ten(k - 3) <= n / 1000)
  {
    TenSum(k - 2, 3);
    TenSum(k - 3, 3);
    TenNine();
  }

  lemma PointFits(value: nat, value': nat, k: nat)
    requires k >= 3 && Padded(value, k + 1)[1..] == Padded(value', k)
    ensures Padded(value / 1000, k - 2)[1..] == Padded(value' / 1000, k - 3)
    ensures Padded(value / 1000, k - 2)[..1] == Padded(value, k + 1)[..1]
    ensures Padded(value, 3) == Padded(value', 3)
  {
    TenNine();
    PaddedTail(value, k - 2, 3);
    PaddedTail(value', k - 3, 3);
    var s := Padded(value, k + 1);
    assert s[1..][..k - 3] == Padded(value / 1000, k - 2)[1..] && s[1..][k - 3..] == Padded(value, 3);
  }

  lemma ThousandIsThird(k: nat)
    requires 3 <= k && Ten(k) == 1000
    ensures k == 3
  {
    TenNine();
    if k > 3 { TenGrows(4, k); }
  }

  lemma PointAfterThousands(k: nat)
    ensures Divider(k - 1) == 100 <==> k == 3
  {
    assert Ten(2) == 100 && Ten(1) == 10;
    TenNine();
    if 0 < k < 3 { TenGrows(k - 1, 1); }
    if k > 3 { TenGrows(3, k - 1); }
  }

  // A leading digit, and the point if it belongs there.
  method DigitAndPoint(out: string, value: nat, divider: nat, ghost k: nat) returns (out': string, value': nat, divider': nat)
    requires divider == Ten(k) && value < Ten(k + 1)
    ensures out' + RestWithPoint(value', k - 1) == out + RestWithPoint(value, k)
    ensures divider' == Divider(k - 1) && value' < Ten(k)
  {
    out', value', divider' := LeadingDigit(out, value, divider, k);
    PointAfterThousands(k);
    if k >= 3 {
      PointFits(value, value', k);
    }
    if divider' == 100 {
      out' := out' + ".";
    }
    Joined(out, value, value', k);
  }

  lemma Joined(out: string, value: nat, value': nat, k: nat)
    requires Padded(value, k + 1)[1..] == Rest(value', k - 1)
    requires k >= 3 ==>
      && Padded(value / 1000, k - 2)[1..] == Padded(value' / 1000, k - 3)
      && Padded(value / 1000, k - 2)[..1] == Padded(value, k + 1)[..1]
      && Padded(value, 3) == Padded(value', 3)
    ensures (out + Padded(value, k + 1)[..1] + if k == 3 then "." else "") + RestWithPoint(value', k - 1) == out + RestWithPoint(value, k)
  {
    hide Padded;
    var d := Padded(value, k + 1)[..1];
    if k < 3 {
      assert RestWithPoint(value, k) == d + RestWithPoint(value', k - 1);
    } else if k == 3 {
      assert Padded(value / 1000, 1) == d;
    } else {
      var p := Padded(value / 1000, k - 2);
      assert p == d + p[1..];
    }
  }

  // _N.  The most negative number cannot be negated: it is printed as zeros.
  method PrintNumber(n: int) returns (out: string)
    requires -0x8000_0000 <= n < 0x8000_0000
    ensures out == if n == -0x8000_0000 then "-0.000" else NumberText(n)
  {
    out := "";
    var value := n;
    if value < 0 {
      out := "-";
      value := Signed32(-value);
    } else if value == 0 {
      return "0";
    }
    if value < 0 {
      out := PrintZeros(out);
    } else {
      out := PrintThousandths(out, value);
    }
  }

  // With a value below zero no divider fits, and every digit is 0.
  method PrintZeros(sign: string) returns (out: string)
    ensures out == sign + "0.000"
  {
    var divider := 1000;
    out := sign;
    while divider != 0
      invariant divider in {1000, 100, 10, 1, 0}
      invariant out == sign + match divider case 1000 => "" case 100 => "0." case 10 => "0.0" case 1 => "0.00" case _ => "0.000"
    {
      out := out + "0";
      divider := divider / 10;
      if divider == 100 {
        out := out + ".";
      }
    }
  }

  method PrintThousandths(sign: string, n: nat) returns (out: string)
    requires 0 < n < 0x8000_0000
    ensures out == sign + Thousandths(n)
  {
    var value: nat, divider: nat := n, 1_000_000_000;
    ghost var k: int := 9;
    TenNine();
    while divider > value
      invariant 4 <= k <= 9 && divider == Ten(k) && value == n < Ten(k + 1)
      decreases k
    {
      NextDivider(k);
      divider := divider / 10;
      k := k - 1;
      if divider == 1000 {
        ThousandIsThird(k);
        break;
      }
    }
    assert k >= 3 && (k == 3 || Ten(k) <= n);
    ThousandthsFrom(n, k);
    out := sign;
    while divider != 0
      invariant -1 <= k <= 9 && divider == Divider(k) && (k >= 0 ==> value < Ten(k + 1))
      invariant out + RestWithPoint(value, k) == sign + Thousandths(n)
      decreases k
    {
      out, value, divider := DigitAndPoint(out, value, divider, k);
      k := k - 1;
    }
  }
}
