// Arithmetic that the proofs have in common.
module Arithmetic {

  // Widths of the machine's numbers.
  const WIDTH := 0x100_0000
  const U32 := 0x1_0000_0000

  function Abs(a: int): int { if a < 0 then -a else a }
  function Max(a: int, b: int): int { if a > b then a else b }
  function Min(a: int, b: int): int { if a < b then a else b }

  // Of 32 bits, with a sign.
  function Signed32(n: int): (m: int)
    ensures -0x8000_0000 <= m < 0x8000_0000
    ensures -0x8000_0000 <= n < 0x8000_0000 ==> m == n
  {
    (n + 0x8000_0000) % U32 - 0x8000_0000
  }

  function Unsigned32(n: int): (m: nat)
    ensures m < U32
    ensures 0 <= n < U32 ==> m == n
  {
    n % U32
  }

  lemma Squares(a: int, b: int)
    requires 0 <= a <= b
    ensures a * a <= b * b
  {
    assert b * b - a * a == (b - a) * (b + a);
  }

  lemma DivMod(a: int, d: int, q: int, r: int)
    requires d > 0 && a == d * q + r && 0 <= r < d
    ensures a / d == q && a % d == r
  {
    var q', r' := a / d, a % d;
    assert d * (q - q') == r' - r;
    if q > q' {
      Monotone(d, 1, q - q');
    } else if q < q' {
      Monotone(d, q - q', -1);
    }
  }

  lemma Monotone(s: int, a: int, b: int)
    requires s > 0 && a <= b
    ensures s * a <= s * b
  {
    assert s * b - s * a == s * (b - a);
  }

  function Quotient(v: nat, d: nat): nat
    requires d > 0
  {
    v / d
  }

  function Pow2(n: nat): (p: nat)
    ensures p > 0
  {
    if n == 0 then 1 else 2 * Pow2(n - 1)
  }

  lemma Pow2Small()
    ensures Pow2(0) == 1 && Pow2(1) == 2 && Pow2(2) == 4 && Pow2(3) == 8 && Pow2(4) == 16
    ensures Pow2(5) == 32 && Pow2(6) == 64 && Pow2(7) == 128 && Pow2(8) == 256
  {
    assert Pow2(2) == 4 && Pow2(4) == 4 * Pow2(2);
    assert Pow2(6) == 4 * Pow2(4) && Pow2(8) == 4 * Pow2(6);
  }

  lemma {:induction false} Pow2Sum(a: nat, b: nat)
    ensures Pow2(a + b) == Pow2(a) * Pow2(b)
  {
    if a > 0 {
      Pow2Sum(a - 1, b);
      assert Pow2(a) * Pow2(b) == 2 * (Pow2(a - 1) * Pow2(b));
    }
  }
}
