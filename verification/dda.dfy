// The step counters: how a tick decides whether an axis steps.  The macro has
// a C form, for a signed counter, and an assembly form that uses the carry of a
// 24 bit addition.  The configuration selects the assembly form.
module Dda {
  import opened Arithmetic
  import opened AvrFlags
  import opened AvrAlu
  import opened AvrCpu

  // "ctr += add; if (ctr > 0) { dostep = 1; ctr -= sub; }"
  function AdvanceSigned(ctr: int, add: int, sub: int): (int, bool) {
    var sum := ctr + add;
    if sum > 0 then (sum - sub, true) else (sum, false)
  }

  // What the assembly computes: unsigned registers, and a step on carry.
  function AdvanceCarry(ctr: int, add: int, sub: int): (int, bool) {
    var sum := ctr + add;
    if sum >= WIDTH then
      var rest := sum - WIDTH - sub;
      (if rest < 0 then rest + WIDTH else rest, true)
    else (sum, false)
  }

  // The same on signed counters: a step when the sum is no longer negative.
  function AdvanceAtZero(ctr: int, add: int, sub: int): (int, bool) {
    var sum := ctr + add;
    if sum >= 0 then (sum - sub, true) else (sum, false)
  }

  // A counter register that holds a negative number.
  function Register(n: int): int { if n < 0 then n + WIDTH else n }

  lemma CarryIsAtZero(ctr: int, add: int, sub: int)
    requires -sub <= ctr < 0 && 0 <= add <= sub < WIDTH
    ensures var s := AdvanceAtZero(ctr, add, sub);
      && AdvanceCarry(Register(ctr), add, sub) == (Register(s.0), s.1)
      && -sub <= s.0 < 0
  {}

  // ---- Steps over many ticks ----

  function SignedSteps(ctr: int, add: int, sub: int, n: nat): nat
    decreases n
  {
    if n == 0 then 0
    else
      var s := AdvanceSigned(ctr, add, sub);
      Bit(s.1) + SignedSteps(s.0, add, sub, n - 1)
  }

  function CarrySteps(ctr: int, add: int, sub: int, n: nat): nat
    decreases n
  {
    if n == 0 then 0
    else
      var s := AdvanceCarry(ctr, add, sub);
      Bit(s.1) + CarrySteps(s.0, add, sub, n - 1)
  }

  // The number of steps keeps the counter in range, so it is determined.
  lemma {:induction false} SignedStepsRange(ctr: int, add: int, sub: int, n: nat)
    requires -sub < ctr <= 0 && 0 <= add <= sub
    ensures -sub < ctr + n * add - sub * SignedSteps(ctr, add, sub, n) <= 0
    decreases n
  {
    if n > 0 {
      var s := AdvanceSigned(ctr, add, sub);
      SignedStepsRange(s.0, add, sub, n - 1);
      OneMore(add, sub, n, Bit(s.1), SignedSteps(s.0, add, sub, n - 1));
    }
  }

  lemma {:induction false} CarryStepsRange(ctr: int, add: int, sub: int, n: nat)
    requires -sub <= ctr < 0 && 0 <= add <= sub < WIDTH
    ensures -sub <= ctr + n * add - sub * CarrySteps(Register(ctr), add, sub, n) < 0
    decreases n
  {
    if n > 0 {
      var s := AdvanceAtZero(ctr, add, sub);
      CarryIsAtZero(ctr, add, sub);
      CarryStepsRange(s.0, add, sub, n - 1);
      OneMore(add, sub, n, Bit(s.1), CarrySteps(Register(s.0), add, sub, n - 1));
    }
  }

  lemma OneMore(add: int, sub: int, n: int, b: int, k: int)
    ensures n * add == (n - 1) * add + add
    ensures sub * (b + k) == sub * b + sub * k
  {}

  lemma OneMultiple(sub: int, d: int)
    requires sub > 0 && -sub < sub * d < sub
    ensures d == 0
  {
    if d > 0 {
      Monotone(sub, 1, d);
    } else if d < 0 {
      Monotone(sub, d, -1);
    }
  }

  // Two counts that leave the counter in its range are the same.
  lemma SameCount(total: int, steps: int, k: int)
    requires -total < total * steps - total * k < total
    ensures k == steps
  {
    assert total * (steps - k) == total * steps - total * k;
    OneMultiple(total, steps - k);
  }

  // After as many ticks as the longest axis has steps, every axis has made
  // exactly its own number of steps ...
  lemma SignedExact(steps: int, total: int)
    requires 0 <= steps <= total && 0 < total
    ensures SignedSteps(-(total / 2), steps, total, total) == steps
  {
    SignedStepsRange(-(total / 2), steps, total, total);
    SameCount(total, steps, SignedSteps(-(total / 2), steps, total, total));
  }

  // ... in the assembly form too, with one exception: a job of a single tick
  // starts from zero, never produces a carry, and loses its step.
  lemma CarryExact(steps: int, total: int)
    requires 0 <= steps <= total && 0 < total < WIDTH
    ensures CarrySteps(Register(-(total / 2)), steps, total, total) == if total == 1 then 0 else steps
  {
    if total == 1 {
      assert CarrySteps(0, steps, 1, 1) == 0 + CarrySteps(steps, steps, 1, 0);
    } else {
      CarryStepsRange(-(total / 2), steps, total, total);
      SameCount(total, steps, CarrySteps(Register(-(total / 2)), steps, total, total));
    }
  }

  // The laser counter of a continuous line starts at -1, and has no exception.
  lemma CarryExactFromMinusOne(steps: int, total: int)
    requires 0 <= steps <= total && 0 < total < WIDTH
    ensures CarrySteps(Register(-1), steps, total, total) == steps
  {
    CarryStepsRange(-1, steps, total, total);
    SameCount(total, steps, CarrySteps(Register(-1), steps, total, total));
  }

  // On the way, no axis is ever more than half a step and half a tick's share
  // away from the straight line.
  lemma CarryDeviation(steps: int, total: int, k: nat)
    requires 0 <= steps <= total && 2 <= total < WIDTH
    ensures var done := CarrySteps(Register(-(total / 2)), steps, total, k);
      -(total + 1) <= 2 * (total * done - k * steps) <= total + 1
  {
    CarryStepsRange(-(total / 2), steps, total, k);
  }

  lemma SignedDeviation(steps: int, total: int, k: nat)
    requires 0 <= steps <= total && 0 < total
    ensures var done := SignedSteps(-(total / 2), steps, total, k);
      -(total + 1) <= 2 * (total * done - k * steps) <= total + 1
  {
    SignedStepsRange(-(total / 2), steps, total, k);
  }

  // ---- The assembly, on the simulated CPU ----

  // The registers of the macro's operands do not overlap.
  ghost predicate Operands(ctr: int, flag: int, add: int, sub: int) {
    && 0 <= ctr && ctr + 3 <= 32 && 0 <= flag < 32
    && 0 <= add && add + 3 <= 32 && 0 <= sub && sub + 3 <= 32
    && !(ctr <= flag < ctr + 3) && !(add <= flag < add + 3) && !(sub <= flag < sub + 3)
    && (ctr + 3 <= add || add + 3 <= ctr) && (ctr + 3 <= sub || sub + 3 <= ctr)
  }

  ghost function Wide(cpu: Cpu, r: int): int
    requires cpu.reg.Length == 32 && 0 <= r && r + 3 <= 32
    reads cpu.reg
  {
    Value(cpu.reg[..][r..r + 3])
  }

  // add, adc, adc
  method Add24(cpu: Cpu, ctr: int, add: int)
    requires cpu.Valid() && cpu.Apart(ctr, add, 3)
    modifies cpu`sreg, cpu.reg
    ensures cpu.Valid()
    ensures Wide(cpu, ctr) + WIDTH * Bit(cpu.sreg.c) == old(Wide(cpu, ctr)) + old(Wide(cpu, add))
    ensures 0 <= Wide(cpu, ctr) < WIDTH
    ensures forall k :: 0 <= k < 32 && !(ctr <= k < ctr + 3) ==> cpu.reg[k] == old(cpu.reg[k])
  {
    assert cpu.reg[..][ctr..ctr + 3] == cpu.reg[ctr..ctr + 3] && cpu.reg[..][add..add + 3] == cpu.reg[add..add + 3];
    AddChainAdds(cpu.reg[ctr..ctr + 3], cpu.reg[add..add + 3], false);
    ThreeBytes();
    cpu.AddWide(ctr, add, 3);
    assert cpu.reg[..][ctr..ctr + 3] == cpu.reg[ctr..ctr + 3];
  }

  // sub, sbc, sbc
  method Sub24(cpu: Cpu, ctr: int, sub: int)
    requires cpu.Valid() && cpu.Apart(ctr, sub, 3)
    modifies cpu`sreg, cpu.reg
    ensures cpu.Valid()
    ensures Wide(cpu, ctr) == Register(old(Wide(cpu, ctr)) - old(Wide(cpu, sub)))
    ensures forall k :: 0 <= k < 32 && !(ctr <= k < ctr + 3) ==> cpu.reg[k] == old(cpu.reg[k])
  {
    assert cpu.reg[..][ctr..ctr + 3] == cpu.reg[ctr..ctr + 3] && cpu.reg[..][sub..sub + 3] == cpu.reg[sub..sub + 3];
    SubChainSubtracts(cpu.reg[ctr..ctr + 3], cpu.reg[sub..sub + 3], cpu.sreg, false);
    ThreeBytes();
    cpu.SubWide(ctr, sub, 3);
    assert cpu.reg[..][ctr..ctr + 3] == cpu.reg[ctr..ctr + 3];
  }

  // clr, add, adc, adc, brcc, inc, sub, sbc, sbc
  method AdvanceOnCpu(cpu: Cpu, ctr: int, flag: int, add: int, sub: int)
    requires cpu.Valid() && Operands(ctr, flag, add, sub)
    modifies cpu`sreg, cpu.reg
    ensures cpu.Valid()
    ensures (Wide(cpu, ctr), cpu.reg[flag] == 1) ==
      AdvanceCarry(old(Wide(cpu, ctr)), old(Wide(cpu, add)), old(Wide(cpu, sub)))
    ensures cpu.reg[flag] <= 1
    ensures forall k :: 0 <= k < 32 && k != flag && !(ctr <= k < ctr + 3) ==> cpu.reg[k] == old(cpu.reg[k])
  {
    hide Value;
    ghost var before := cpu.reg[..];
    cpu.Clr(flag);
    Untouched(before, cpu.reg[..], flag, 1, ctr);
    Untouched(before, cpu.reg[..], flag, 1, add);
    Untouched(before, cpu.reg[..], flag, 1, sub);
    ghost var cleared := cpu.reg[..];
    Add24(cpu, ctr, add);
    Untouched(cleared, cpu.reg[..], ctr, 3, sub);
    if cpu.sreg.c {
      ghost var added := cpu.reg[..];
      cpu.Inc(flag);
      Untouched(added, cpu.reg[..], flag, 1, ctr);
      Untouched(added, cpu.reg[..], flag, 1, sub);
      Sub24(cpu, ctr, sub);
    }
  }

  // Three registers that a change of n others from r on does not touch.
  lemma Untouched(before: seq<Byte>, after: seq<Byte>, r: int, n: int, at: int)
    requires |before| == |after| == 32 && 0 <= at && at + 3 <= 32 && (at + 3 <= r || r + n <= at)
    requires forall k :: 0 <= k < 32 && !(r <= k < r + n) ==> after[k] == before[k]
    ensures after[at..at + 3] == before[at..at + 3]
  {}

  lemma ThreeBytes()
    ensures Power(3) == WIDTH
  {
    assert Power(1) == 256 * Power(0);
    assert Power(2) == 256 * Power(1);
  }
}
