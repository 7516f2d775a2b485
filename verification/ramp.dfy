// The speed ramp of a move: a timer value is packed into a code of six mantissa
// bits and an exponent, codes are counted down from both ends of the move, and
// unpacked again.
module Ramp {
  import opened Arithmetic

  const MAGIC := 6
  const MANTISSA := 64

  // The timer value a code stands for.
  function Decoded(code: nat): nat {
    if code < MANTISSA then code
    else (MANTISSA + code % MANTISSA) * Pow2(code / MANTISSA - 1)
  }

  lemma DecodedAt(exponent: nat, mantissa: nat)
    requires 1 <= exponent && MANTISSA <= mantissa <= 2 * MANTISSA
    ensures Decoded(mantissa - MANTISSA + exponent * MANTISSA) == mantissa * Pow2(exponent - 1)
  {
    var code := mantissa - MANTISSA + exponent * MANTISSA;
    if mantissa == 2 * MANTISSA {
      assert code / MANTISSA == exponent + 1 && code % MANTISSA == 0;
    } else {
      assert code / MANTISSA == exponent && code % MANTISSA == mantissa - MANTISSA;
    }
  }

  lemma DecodedGrows(code: nat)
    ensures Decoded(code) < Decoded(code + 1)
  {
    if code >= MANTISSA {
      var e, m := code / MANTISSA, MANTISSA + code % MANTISSA;
      DecodedAt(e, m);
      DecodedAt(e, m + 1);
      assert (m + 1) * Pow2(e - 1) == m * Pow2(e - 1) + Pow2(e - 1);
    } else if code == MANTISSA - 1 {
      DecodedAt(1, MANTISSA);
    }
  }

  lemma {:induction false} DecodedIncreases(a: nat, b: nat)
    requires a <= b
    ensures Decoded(a) <= Decoded(b)
    ensures a < b ==> Decoded(a) < Decoded(b)
    decreases b - a
  {
    if a < b {
      DecodedGrows(b - 1);
      DecodedIncreases(a, b - 1);
    }
  }

  // The largest code of a 16 bit value.
  const TOP := 703

  lemma TopIsTop()
    ensures Decoded(TOP) == 65024 && Decoded(TOP + 1) == 65536
  {
    assert Pow2(9) == 512 by { Pow2Nine(); }
    DecodedAt(10, 127);
    DecodedAt(10, 128);
  }

  lemma Pow2Nine()
    ensures Pow2(9) == 512
  {
    assert Pow2(3) == 8 && Pow2(6) == 8 * Pow2(3);
    assert Pow2(9) == 8 * Pow2(6);
  }

  // The greatest code that does not stand for more.
  ghost function TopCode(ticks: nat): (code: nat)
    requires ticks < 0x1_0000
    ensures Decoded(code) <= ticks < Decoded(code + 1) && code <= TOP
  {
    TopIsTop();
    TopFrom(ticks, 0)
  }

  ghost function TopFrom(ticks: nat, from: nat): (code: nat)
    requires Decoded(from) <= ticks < Decoded(TOP + 1) && from <= TOP
    ensures Decoded(code) <= ticks < Decoded(code + 1) && code <= TOP
    decreases TOP - from
  {
    if ticks < Decoded(from + 1) then from else TopFrom(ticks, from + 1)
  }

  lemma TopIsUnique(ticks: nat, code: nat)
    requires ticks < 0x1_0000 && Decoded(code) <= ticks < Decoded(code + 1)
    ensures code == TopCode(ticks)
  {
    hide Decoded;
    var top := TopCode(ticks);
    if code < top {
      DecodedIncreases(code + 1, top);
    } else if top < code {
      DecodedIncreases(top + 1, code);
    }
  }

  // "Figure out highest code which (after decoding) is not bigger."
  method Encode(ticks: nat) returns (code: nat)
    requires ticks < 0x1_0000
    ensures Decoded(code) <= ticks < Decoded(code + 1) && code <= TOP
    ensures code == TopCode(ticks)
  {
    if ticks < MANTISSA {
      code := ticks;
      DecodedGrows(ticks);
    } else {
      var exponent, rest := Normalize(ticks);
      DecodedAt(exponent, rest);
      DecodedAt(exponent, rest + 1);
      hide Decoded, Pow2;
      code := rest % MANTISSA + exponent * MANTISSA;
      assert rest % MANTISSA == rest - MANTISSA;
    }
    TopIsUnique(ticks, code);
  }

  method Normalize(ticks: nat) returns (exponent: nat, rest: nat)
    requires ticks >= MANTISSA
    ensures exponent >= 1 && MANTISSA <= rest < 2 * MANTISSA
    ensures rest * Pow2(exponent - 1) <= ticks < (rest + 1) * Pow2(exponent - 1)
  {
    exponent, rest := 1, ticks;
    while rest >= 2 * MANTISSA
      invariant exponent >= 1 && rest >= MANTISSA
      invariant rest * Pow2(exponent - 1) <= ticks < (rest + 1) * Pow2(exponent - 1)
    {
      Halve(rest, Pow2(exponent - 1), ticks);
      exponent := exponent + 1;
      rest := rest / 2;
    }
  }

  lemma Halve(rest: nat, p: nat, ticks: nat)
    requires rest * p <= ticks < (rest + 1) * p
    ensures rest / 2 * (2 * p) <= ticks < (rest / 2 + 1) * (2 * p)
  {
    var h := rest / 2;
    if rest == 2 * h {
      assert h * (2 * p) == rest * p;
      assert (h + 1) * (2 * p) == (rest + 1) * p + p;
    } else {
      assert rest == 2 * h + 1;
      assert h * (2 * p) == rest * p - p;
      assert (h + 1) * (2 * p) == (rest + 1) * p;
    }
  }

  // Unpacking shifts bit by bit, and gives up with the largest value when a
  // bit would be lost.
  method Decode(code: nat) returns (ticks: nat)
    ensures ticks == if Decoded(code) < 0x1_0000 then Decoded(code) else 0xffff
  {
    var shifts := code / MANTISSA;
    ticks := code % MANTISSA;
    if shifts > 0 {
      ticks := ticks + MANTISSA;
      shifts := shifts - 1;
    }
    while shifts > 0
      invariant 0 <= shifts
      invariant Decoded(code) == ticks * Pow2(shifts)
      invariant 0 < shifts ==> 0 < ticks
      invariant ticks < 0x1_0000
    {
      if ticks < 0x8000 {
        assert (2 * ticks) * Pow2(shifts - 1) == ticks * Pow2(shifts);
        ticks := 2 * ticks;
        shifts := shifts - 1;
      } else {
        TooLarge(ticks, Pow2(shifts - 1));
        return 0xffff;
      }
    }
  }

  lemma TooLarge(ticks: nat, p: nat)
    requires ticks >= 0x8000 && p >= 1
    ensures ticks * (2 * p) >= 0x1_0000
  {
    assert ticks * (2 * p) - 0x1_0000 == (ticks - 0x8000) * (2 * p) + 0x1_0000 * (p - 1);
  }

  // Ticks for the step that has `before` steps on one side and `after` on the
  // other; the distance to the nearer end is kept in 16 bits.
  function StepTicks(base: nat, top: nat, before: nat, after: nat): nat {
    var d := Min(before, after) % 0x1_0000;
    Max(2000, Min(base, Decoded(if d <= top then top - d else 0)))
  }

  // The timer value of one tick of the move kernel.
  method RampTicks(base: nat, toGo: nat, total: nat) returns (ticks: nat)
    requires base < 0x1_0000 && 0 < toGo <= total
    ensures ticks == MoveTicks(base, total, total - toGo)
  {
    var maxcode := Encode(base);
    var tmp := Min(toGo - 1, total - toGo) % 0x1_0000;
    var code: nat := if tmp <= maxcode then maxcode - tmp else 0;
    DecodedIncreases(code, TOP);
    TopIsTop();
    var value := Decode(code);
    ticks := Max(2000, Min(base, value));
  }

  // The k-th tick of a move of `total` steps.
  ghost function MoveTicks(base: nat, total: nat, k: nat): nat
    requires k < total && base < 0x1_0000
  {
    StepTicks(base, TopCode(base), k, total - 1 - k)
  }

  // The ramp is one code a step: up to the middle, the k-th tick has the code of
  // the base value less k, down to none, and is no faster than the fastest rate.
  // After 65536 steps the distance begins anew.
  lemma RampIsOneCodeAStep(base: nat, total: nat, k: nat)
    requires base < 0x1_0000 && k <= total - 1 - k
    ensures var top, d := TopCode(base), k % 0x1_0000;
      MoveTicks(base, total, k) == Max(2000, if d <= top then Decoded(top - d) else 0)
  {
    hide Decoded;
    var top, d := TopCode(base), k % 0x1_0000;
    DecodedIncreases(if d <= top then top - d else 0, top);
    DecodedZero();
    assert Min(k, total - 1 - k) == k;
  }

  lemma DecodedZero()
    ensures Decoded(0) == 0
  {}

  // So it starts as slowly as the base value can be coded, and two ticks in a row
  // are neighbouring codes, until there are no slower ones left.
  lemma RampBegins(base: nat, total: nat)
    requires base < 0x1_0000 && total > 0
    ensures MoveTicks(base, total, 0) == Max(2000, Decoded(TopCode(base)))
  {
    RampIsOneCodeAStep(base, total, 0);
  }

  lemma NextTick(base: nat, total: nat, k: nat)
    requires base < 0x1_0000 && k + 1 <= total - 2 - k && k < 0xffff
    ensures k < TopCode(base) ==>
      var c := TopCode(base) - k - 1;
      MoveTicks(base, total, k) == Max(2000, Decoded(c + 1)) && MoveTicks(base, total, k + 1) == Max(2000, Decoded(c))
    ensures k >= TopCode(base) ==> MoveTicks(base, total, k) == MoveTicks(base, total, k + 1) == 2000
  {
    hide Decoded, TopCode, MoveTicks;
    RampIsOneCodeAStep(base, total, k);
    RampIsOneCodeAStep(base, total, k + 1);
    assert k % 0x1_0000 == k && (k + 1) % 0x1_0000 == k + 1;
    DecodedZero();
  }

  // Speeding up and slowing down are mirror images, and the timer value stays
  // between the fastest rate and the base rate.
  lemma RampIsSymmetric(base: nat, total: nat, k: nat)
    requires k < total && base < 0x1_0000
    ensures MoveTicks(base, total, k) == MoveTicks(base, total, total - 1 - k)
    ensures 2000 <= MoveTicks(base, total, k) <= Max(2000, base)
  {}

  // Up to the middle of the move the timer value only falls.
  ghost predicate FallsToTheMiddle(base: nat, total: nat)
    requires base < 0x1_0000
  {
    forall k: nat, l: nat | k <= l && l <= total - 1 - l ::
      MoveTicks(base, total, l) <= MoveTicks(base, total, k)
  }

  // A base rate of less than this is coded as one that is as fast as can be.
  const FULL_SPEED := 2016

  lemma FullSpeed(base: nat)
    requires base < 0x1_0000
    ensures Decoded(TopCode(base)) <= 2000 <==> base < FULL_SPEED
  {
    DecodedAt(5, 125);
    DecodedAt(5, 126);
    assert Pow2(4) == 16 by { Pow2Small(); }
    var top := TopCode(base);
    assert Decoded(381) == 2000 && Decoded(382) == FULL_SPEED;
    hide Decoded, Pow2;
    if top <= 381 {
      DecodedIncreases(top, 381);
      DecodedIncreases(top + 1, 382);
    } else {
      DecodedIncreases(382, top);
    }
  }

  // That holds for moves of up to 131072 steps.  Of longer ones the distance
  // wraps around in the middle and the ramp starts anew, which is noticed
  // unless the move is as fast as can be all along.
  lemma RampFalls(base: nat, total: nat)
    requires base < 0x1_0000
    ensures FallsToTheMiddle(base, total) <==> total <= 0x2_0000 || base < FULL_SPEED
  {
    FullSpeed(base);
    if total <= 0x2_0000 || base < FULL_SPEED {
      forall k: nat, l: nat | k <= l && l <= total - 1 - l
        ensures MoveTicks(base, total, l) <= MoveTicks(base, total, k)
      {
        FallsBetween(base, TopCode(base), total, k, l);
      }
    } else {
      WrapsAround(base, TopCode(base), total);
      assert MoveTicks(base, total, 0xffff) < MoveTicks(base, total, 0x1_0000);
    }
  }

  lemma NearerEnd(k: nat, total: nat)
    requires k <= total - 1 - k && k < 0x1_0000
    ensures Min(k, total - 1 - k) % 0x1_0000 == k
  {}

  lemma FallsBetween(base: nat, top: nat, total: nat, k: nat, l: nat)
    requires total <= 0x2_0000 || Decoded(top) <= 2000
    requires k <= l && l <= total - 1 - l
    ensures StepTicks(base, top, l, total - 1 - l) <= StepTicks(base, top, k, total - 1 - k)
  {
    if total <= 0x2_0000 {
      assert l < 0x1_0000;
      NearerEnd(k, total);
      NearerEnd(l, total);
      hide Decoded;
      DecodedIncreases(if l <= top then top - l else 0, if k <= top then top - k else 0);
    } else {
      var d := Min(l, total - 1 - l) % 0x1_0000;
      DecodedIncreases(if d <= top then top - d else 0, top);
    }
  }

  lemma WrapsAround(base: nat, top: nat, total: nat)
    requires total > 0x2_0000 && top <= TOP && 2000 < Decoded(top) <= base
    ensures StepTicks(base, top, 0xffff, total - 0x1_0000) == 2000 < StepTicks(base, top, 0x1_0000, total - 0x1_0001)
  {}
}
