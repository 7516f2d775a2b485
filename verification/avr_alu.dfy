// Additions, subtractions and comparisons of numbers of any length, as the
// simulated AVR does them: byte by byte, through the carry flag.
module AvrAlu {
  import opened Arithmetic
  import opened AvrFlags

  // ---- One byte ----

  function SignedByte(a: Byte): int { if a >= 128 then a - 256 else a }

  predicate Fits(n: int) { -128 <= n < 128 }

  // What the flags of an addition mean.
  function AddFlags(a: Byte, b: Byte, carry: bool): Flags {
    var sum := a + b + Bit(carry);
    var low := if sum >= 256 then sum - 256 else sum;
    var signed := SignedByte(a) + SignedByte(b) + Bit(carry);
    Flags(sum >= 256, low == 0, low >= 128, !Fits(signed), signed < 0, a % 16 + b % 16 + Bit(carry) >= 16)
  }

  // And of a subtraction; z is only kept, not set, by the instructions that
  // continue one.  The half carry is the simulator's own.
  function SubFlags(a: Byte, b: Byte, carry: bool, keepZ: bool, z: bool, h: bool): Flags {
    var difference := a - b - Bit(carry);
    var low := if difference < 0 then difference + 256 else difference;
    var signed := SignedByte(a) - SignedByte(b) - Bit(carry);
    Flags(difference < 0, low == 0 && (keepZ ==> z), low >= 128, !Fits(signed), signed < 0, h)
  }

  // Carry out of bit 3, from the bits at that place.
  lemma HalfOfAddition(a: int, b: int, carry: int)
    requires 0 <= a && 0 <= b && 0 <= carry <= 1
    ensures (a % 16 + b % 16 + carry >= 16) ==
      ((Bit3(a) && Bit3(b)) || (!Bit3(a + b + carry) && (Bit3(a) || Bit3(b))))
  {
    var a3, al, b3, bl := a / 8 % 2, a % 8, b / 8 % 2, b % 8;
    SplitHalf(a);
    SplitHalf(b);
    var low := al + bl + carry;
    assert a + b + carry == 16 * (a / 16 + b / 16) + 8 * (a3 + b3) + low;
    assert (a + b + carry) / 8 == 2 * (a / 16 + b / 16) + a3 + b3 + low / 8;
  }

  lemma SplitHalf(a: int)
    requires 0 <= a
    ensures a == a / 16 * 16 + 8 * (a / 8 % 2) + a % 8
    ensures a % 16 == 8 * (a / 8 % 2) + a % 8
  {
    var q, r := a / 16, a % 16;
    var h, l := r / 8, r % 8;
    DivMod(a, 8, 2 * q + h, l);
    DivMod(a / 8, 2, q, h);
  }

  lemma ByteSign(a: Byte)
    ensures Bit7(a) == (a >= 128)
  {}

  lemma NineBits(r: int)
    requires 0 <= r < 512
    ensures Bit7(r) == (r % 256 >= 128)
    ensures r % 256 == if r >= 256 then r - 256 else r
  {}

  lemma AddMeans(a: Byte, b: Byte, carry: bool, half: int)
    requires half == Bit(Bit3(b)) + 2 * Bit(Bit3(a))
    ensures AddDecoded(a + b + Bit(carry), a >= 128, b >= 128, half) == AddFlags(a, b, carry)
  {
    var sum := a + b + Bit(carry);
    NineBits(sum);
    HalfOfAddition(a, b, Bit(carry));
    assert Half(sum, half) == (a % 16 + b % 16 + Bit(carry) >= 16);
  }

  lemma SubMeans(a: Byte, b: Byte, carry: bool, half: int, r: int)
    requires var d := a - b - Bit(carry); r == if d < 0 then d + 512 else d
    ensures var f := SubDecoded(r, a >= 128, b >= 128, half);
      f == SubFlags(a, b, carry, false, false, f.h)
  {
    NineBits(r);
  }

  // Entry i was looked up for a and b.
  ghost predicate LookedUp(i: int, a: Byte, b: Byte, r: int) {
    && Result(i) == r
    && V1Sign(i) == (a >= 128) && V2Sign(i) == (b >= 128)
    && HalfBits(i) == Bit(Bit3(b)) + 2 * Bit(Bit3(a))
  }

  lemma LookupIsRight(a: Byte, b: Byte, res: int)
    ensures LookedUp(TableIndex(a, b, res), a, b, res % 512)
  {
    IndexDecodes(a, b, res);
    ByteSign(a);
    ByteSign(b);
  }

  // The table entry of an addition says just that.
  lemma AddTable(i: int, a: Byte, b: Byte, carry: bool)
    requires LookedUp(i, a, b, a + b + Bit(carry))
    ensures AddEntry(i) == AddFlags(a, b, carry)
  {
    AddMeans(a, b, carry, HalfBits(i));
  }

  lemma SubTable(i: int, a: Byte, b: Byte, carry: bool)
    requires LookedUp(i, a, b, (a - b - Bit(carry)) % 512)
    ensures SubEntry(i) == SubFlags(a, b, carry, false, false, SubEntry(i).h)
  {
    SubMeans(a, b, carry, HalfBits(i), Result(i));
  }

  // The flags, told from the byte that results: a carry if it is not the sum,
  // an overflow if it is not that of signed numbers, and a half carry if its
  // low half is not that of the low halves.
  lemma FlagsOfSum(a: Byte, b: Byte, carry: bool)
    ensures var f, r, sum := AddFlags(a, b, carry), AddResult(a, b, carry), SignedByte(a) + SignedByte(b) + Bit(carry);
      && r == (a + b + Bit(carry)) % 256
      && (f.c <==> r != a + b + Bit(carry)) && (f.z <==> r == 0) && (f.n <==> SignedByte(r) < 0)
      && (f.v <==> SignedByte(r) != sum) && (f.s <==> sum < 0) && (f.h <==> r % 16 != a % 16 + b % 16 + Bit(carry))
  {
    LowHalfOfSum(a, b, Bit(carry), AddResult(a, b, carry));
  }

  lemma LowHalfOfSum(a: int, b: int, carry: int, r: int)
    requires 0 <= a && 0 <= b && 0 <= carry <= 1 && (r == a + b + carry || r == a + b + carry - 256)
    ensures var low := a % 16 + b % 16 + carry; r % 16 == if low >= 16 then low - 16 else low
  {
    var low, high := a % 16 + b % 16 + carry, a / 16 + b / 16 + if r == a + b + carry then 0 else -16;
    DivMod(r, 16, if low >= 16 then high + 1 else high, if low >= 16 then low - 16 else low);
  }

  lemma FlagsOfDifference(a: Byte, b: Byte, borrow: bool, keepZ: bool, z: bool, h: bool)
    ensures var f, r, d := SubFlags(a, b, borrow, keepZ, z, h), SubResult(a, b, borrow), SignedByte(a) - SignedByte(b) - Bit(borrow);
      && r == (a - b - Bit(borrow)) % 256
      && (f.c <==> r != a - b - Bit(borrow)) && (f.z <==> r == 0 && (keepZ ==> z)) && (f.n <==> SignedByte(r) < 0)
      && (f.v <==> SignedByte(r) != d) && (f.s <==> d < 0) && f.h == h
  {}

  // The half carry of a subtraction comes from the formula for additions.  It
  // is the borrow from bit 4 only when bit 3 of the result is that of the
  // minuend.
  lemma SubHalfCarry(i: int, a: Byte, b: Byte, borrow: bool)
    requires LookedUp(i, a, b, (a - b - Bit(borrow)) % 512)
    ensures (SubEntry(i).h == (a % 16 < b % 16 + Bit(borrow))) <==>
            Bit3(a - b - Bit(borrow)) == Bit3(a)
  {
    SplitHalf(a);
    SplitHalf(b);
    HalfOfSubtraction(a, b, Bit(borrow));
    BitsBelow512(a - b - Bit(borrow));
  }

  lemma HalfOfSubtraction(a: int, b: int, borrow: int)
    requires 0 <= a && 0 <= b && 0 <= borrow <= 1
    ensures Bit3(a - b - borrow) == ((Bit3(a) != Bit3(b)) != (a % 8 < b % 8 + borrow))
  {
    var a3, al, b3, bl := a / 8 % 2, a % 8, b / 8 % 2, b % 8;
    SplitHalf(a);
    SplitHalf(b);
    var low := al - bl - borrow;
    assert a - b - borrow == 16 * (a / 16 - b / 16) + 8 * (a3 - b3) + low;
    assert (a - b - borrow) / 8 == 2 * (a / 16 - b / 16) + a3 - b3 + low / 8;
  }

  lemma BitsBelow512(n: int)
    ensures Bit3(n % 512) == Bit3(n)
  {
    var q, r := n / 512, n % 512;
    DivMod(n, 8, 64 * q + r / 8, r % 8);
    DivMod(n / 8, 2, 32 * q + r / 8 / 2, r / 8 % 2);
  }

  // ---- Any number of bytes, lowest first ----

  function Power(n: nat): (p: int)
    ensures p > 0
  {
    if n == 0 then 1 else 256 * Power(n - 1)
  }

  function Value(s: seq<Byte>): (v: int)
    ensures 0 <= v < Power(|s|)
  {
    if s == [] then 0 else s[0] + 256 * Value(s[1..])
  }

  // Two's complement.
  function SignedValue(s: seq<Byte>): int
    requires s != []
  {
    if s[|s| - 1] >= 128 then Value(s) - Power(|s|) else Value(s)
  }

  function AddResult(a: Byte, b: Byte, carry: bool): Byte {
    var sum := a + b + Bit(carry);
    if sum >= 256 then sum - 256 else sum
  }

  function SubResult(a: Byte, b: Byte, carry: bool): Byte {
    var difference := a - b - Bit(carry);
    if difference < 0 then difference + 256 else difference
  }

  // ADD (or ADC) of the lowest bytes, then ADC upwards.
  function AddChain(a: seq<Byte>, b: seq<Byte>, carry: bool): (r: (seq<Byte>, bool))
    requires |a| == |b|
    ensures |r.0| == |a|
  {
    if a == [] then ([], carry)
    else
      var high := AddChain(a[1..], b[1..], AddFlags(a[0], b[0], carry).c);
      ([AddResult(a[0], b[0], carry)] + high.0, high.1)
  }

  lemma {:induction false} AddChainAdds(a: seq<Byte>, b: seq<Byte>, carry: bool)
    requires |a| == |b|
    ensures var r := AddChain(a, b, carry);
      Value(r.0) + Power(|a|) * Bit(r.1) == Value(a) + Value(b) + Bit(carry)
  {
    if a != [] {
      var c := AddFlags(a[0], b[0], carry).c;
      var high := AddChain(a[1..], b[1..], c);
      AddChainAdds(a[1..], b[1..], c);
      assert AddChain(a, b, carry).0[1..] == high.0;
      Carried(Power(|a| - 1), high.1);
    }
  }

  lemma Carried(p: int, c: bool)
    ensures 256 * p * Bit(c) == 256 * (p * Bit(c))
  {}

  // SUB or CP of the lowest bytes, then SBC or CPC upwards.
  function SubChain(a: seq<Byte>, b: seq<Byte>, f: Flags, keepZ: bool): (r: (seq<Byte>, Flags))
    requires |a| == |b|
    ensures |r.0| == |a|
  {
    if a == [] then ([], f)
    else
      var borrow := keepZ && f.c;
      var high := SubChain(a[1..], b[1..], SubFlags(a[0], b[0], borrow, keepZ, f.z, f.h), true);
      ([SubResult(a[0], b[0], borrow)] + high.0, high.1)
  }

  lemma {:induction false} SubChainSubtracts(a: seq<Byte>, b: seq<Byte>, f: Flags, keepZ: bool)
    requires |a| == |b| > 0
    ensures var r := SubChain(a, b, f, keepZ);
      var borrow := Bit(keepZ && f.c);
      && Value(r.0) - Power(|a|) * Bit(r.1.c) == Value(a) - Value(b) - borrow
      && (r.1.z <==> Value(r.0) == 0 && (keepZ ==> f.z))
      && (r.1.s <==> SignedValue(a) - SignedValue(b) - borrow < 0)
  {
    hide SubFlags, SubResult, Value, Power, SubChain, SignedValue;
    if |a| > 1 {
      var borrow := keepZ && f.c;
      var low := SubFlags(a[0], b[0], borrow, keepZ, f.z, f.h);
      SubChainSubtracts(a[1..], b[1..], low, true);
      SignedHigh(a);
      SignedHigh(b);
      HigherBytes(a, b, f, keepZ);
      LowestByte(a[0], b[0], borrow, keepZ, f.z, f.h);
    } else {
      SubOneByte(a, b, f, keepZ);
    }
  }

  // The chain on the other bytes, and what the numbers have to do with theirs.
  lemma HigherBytes(a: seq<Byte>, b: seq<Byte>, f: Flags, keepZ: bool)
    requires |a| == |b| > 1
    ensures var low := SubFlags(a[0], b[0], keepZ && f.c, keepZ, f.z, f.h);
      var r, high := SubChain(a, b, f, keepZ), SubChain(a[1..], b[1..], low, true);
      && r.1 == high.1
      && Value(r.0) == SubResult(a[0], b[0], keepZ && f.c) + 256 * Value(high.0) && 0 <= Value(high.0)
      && Value(a) == a[0] + 256 * Value(a[1..]) && Value(b) == b[0] + 256 * Value(b[1..])
      && Power(|a|) * Bit(r.1.c) == 256 * (Power(|a| - 1) * Bit(high.1.c))
  {
    hide SubFlags, SubResult;
    var low := SubFlags(a[0], b[0], keepZ && f.c, keepZ, f.z, f.h);
    var high := SubChain(a[1..], b[1..], low, true);
    assert SubChain(a, b, f, keepZ).0[1..] == high.0;
    Carried(Power(|a| - 1), high.1.c);
  }

  lemma LowestByte(a: Byte, b: Byte, borrow: bool, keepZ: bool, z: bool, h: bool)
    ensures var low, result := SubFlags(a, b, borrow, keepZ, z, h), SubResult(a, b, borrow);
      result == a - b - Bit(borrow) + 256 * Bit(low.c) && (low.z <==> result == 0 && (keepZ ==> z))
  {}

  lemma SubOneByte(a: seq<Byte>, b: seq<Byte>, f: Flags, keepZ: bool)
    requires |a| == |b| == 1
    ensures var r := SubChain(a, b, f, keepZ);
      var borrow := Bit(keepZ && f.c);
      && Value(r.0) - Power(1) * Bit(r.1.c) == Value(a) - Value(b) - borrow
      && (r.1.z <==> Value(r.0) == 0 && (keepZ ==> f.z))
      && (r.1.s <==> SignedValue(a) - SignedValue(b) - borrow < 0)
  {
    OneByte(a);
    OneByte(b);
    OneByte(SubChain(a, b, f, keepZ).0);
  }

  lemma OneByte(s: seq<Byte>)
    requires |s| == 1
    ensures Value(s) == s[0] && SignedValue(s) == SignedByte(s[0]) && Power(1) == 256
  {
    assert Value(s[1..]) == 0;
    assert Power(1) == 256 * Power(0);
  }

  lemma SignedHigh(s: seq<Byte>)
    requires |s| > 1
    ensures SignedValue(s) == s[0] + 256 * SignedValue(s[1..])
  {
    assert s[1..][|s| - 2] == s[|s| - 1];
  }

  lemma {:induction false} ValueIsInjective(a: seq<Byte>, b: seq<Byte>)
    requires |a| == |b|
    ensures Value(a) == Value(b) <==> a == b
  {
    if a != [] {
      ValueIsInjective(a[1..], b[1..]);
      if Value(a) == Value(b) {
        assert a[0] == b[0];
        assert a == [a[0]] + a[1..] && b == [b[0]] + b[1..];
      }
    }
  }

  // A comparison of any length: C for unsigned less, Z for equal, S for
  // signed less.
  lemma CompareChain(a: seq<Byte>, b: seq<Byte>, f: Flags)
    requires |a| == |b| > 0
    ensures var r := SubChain(a, b, f, false).1;
      && (r.c <==> Value(a) < Value(b))
      && (r.z <==> a == b)
      && (r.s <==> SignedValue(a) < SignedValue(b))
  {
    SubChainSubtracts(a, b, f, false);
    ValueIsInjective(a, b);
    var r := SubChain(a, b, f, false);
    BorrowIsLess(Value(r.0), Value(a), Value(b), Power(|a|), r.1.c);
  }

  lemma BorrowIsLess(r: int, x: int, y: int, p: int, c: bool)
    requires 0 <= r < p && 0 <= x < p && 0 <= y < p
    requires r - p * Bit(c) == x - y
    ensures c <==> x < y
    ensures r == 0 <==> x == y
  {}

  // A chain made longer at the high end, the way a program is executed.
  lemma {:induction false} AddChainSnoc(a: seq<Byte>, b: seq<Byte>, carry: bool, x: Byte, y: Byte)
    requires |a| == |b|
    ensures var r := AddChain(a, b, carry);
      AddChain(a + [x], b + [y], carry) == (r.0 + [AddResult(x, y, r.1)], AddFlags(x, y, r.1).c)
  {
    if a == [] {
      assert a + [x] == [x] && b + [y] == [y];
      assert AddChain([x][1..], [y][1..], AddFlags(x, y, carry).c) == ([], AddFlags(x, y, carry).c);
      assert [AddResult(x, y, carry)] + [] == [] + [AddResult(x, y, carry)];
    } else {
      var c, low := AddFlags(a[0], b[0], carry).c, [AddResult(a[0], b[0], carry)];
      AddChainSnoc(a[1..], b[1..], c, x, y);
      var high := AddChain(a[1..], b[1..], c);
      assert (a + [x])[1..] == a[1..] + [x] && (b + [y])[1..] == b[1..] + [y];
      assert (low + high.0) + [AddResult(x, y, high.1)] == low + (high.0 + [AddResult(x, y, high.1)]);
    }
  }

  lemma {:induction false} SubChainSnoc(a: seq<Byte>, b: seq<Byte>, f: Flags, keepZ: bool, x: Byte, y: Byte)
    requires |a| == |b|
    ensures var r := SubChain(a, b, f, keepZ);
      var keep := keepZ || a != [];
      SubChain(a + [x], b + [y], f, keepZ) ==
        (r.0 + [SubResult(x, y, keep && r.1.c)], SubFlags(x, y, keep && r.1.c, keep, r.1.z, r.1.h))
  {
    if a == [] {
      assert a + [x] == [x] && b + [y] == [y];
      var g := SubFlags(x, y, keepZ && f.c, keepZ, f.z, f.h);
      assert SubChain([x][1..], [y][1..], g, true) == ([], g);
      assert [SubResult(x, y, keepZ && f.c)] + [] == [] + [SubResult(x, y, keepZ && f.c)];
    } else {
      var g := SubFlags(a[0], b[0], keepZ && f.c, keepZ, f.z, f.h);
      var low := [SubResult(a[0], b[0], keepZ && f.c)];
      SubChainSnoc(a[1..], b[1..], g, true, x, y);
      var high := SubChain(a[1..], b[1..], g, true);
      assert (a + [x])[1..] == a[1..] + [x] && (b + [y])[1..] == b[1..] + [y];
      assert (low + high.0) + [SubResult(x, y, high.1.c)] == low + (high.0 + [SubResult(x, y, high.1.c)]);
    }
  }
}
