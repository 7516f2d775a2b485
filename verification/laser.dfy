// The laser half of the timer interrupt: a counter decides at which ticks the
// laser is to fire, and raster data how much.
module LaserPulses {
  import opened Arithmetic
  import opened Bits
  import opened Dda
  import opened Motion
  import opened RasterSupply
  import AvrFlags
  import opened RingBuffer

  // ---- Words of 16 bits ----

  function Or16(a: nat, b: nat): (r: nat)
    ensures r < Pow2(16)
  {
    FromBits(OrBits(ToBits(a, 16), ToBits(b, 16)))
  }

  function Shl(v: nat, k: nat): nat { Low16(v * Pow2(k)) }

  function Low16(v: nat): (w: nat)
    ensures v < 0x1_0000 ==> w == v
  {
    v % 0x1_0000
  }

  lemma Pow2Sixteen()
    ensures Pow2(8) == 256 && Pow2(16) == 0x1_0000
  {
    Pow2Small();
    Pow2Sum(8, 8);
  }

  lemma Appended(r: nat, n: nat, b: Byte)
    ensures ToBits(r * 256 + b, n + 8) == ToBits(r, n) + ToBits(b, 8)
  {
    Pow2Sixteen();
    DivMod(r * 256 + b, 256, r, b);
    ToBitsSplit(r * 256 + b, n, 8);
  }

  lemma HighLow(h: nat, l: nat)
    requires l < 256
    ensures ToBits(h * 256 + l, 16) == ToBits(h, 8) + ToBits(l, 8)
  {
    Appended(h, 8, l);
  }

  // Bits that do not overlap: or is plus.
  lemma OrDisjoint(h: nat, l: nat)
    requires h < 256 && l < 256
    ensures Or16(h * 256, l) == h * 256 + l
  {
    HighLow(h, 0);
    HighLow(0, l);
    HighLow(h, l);
    ZeroBits(8);
    Pow2Sixteen();
    OrOfConcat(ToBits(h, 8), ToBits(l, 8));
    FromToBits(h * 256 + l, 16);
  }

  lemma OrOfBytes(a: Byte, b: Byte)
    ensures Or16(a, b) == OrByte(a, b)
    ensures a == 0 ==> Or16(a, b) == b
    ensures b == 0 ==> Or16(a, b) == a
  {
    var s, t, r := ToBits(a, 8), ToBits(b, 8), OrByte(a, b);
    ToFromBits(OrBits(s, t));
    assert ToBits(r, 8) == OrBits(s, t);
    OrWithZero(a, b);
    hide ToBits, FromBits, OrBits, OrByte;
    Padded(a);
    Padded(b);
    Padded(r);
    OrOfPadded(s, t);
    Pow2Sixteen();
    FromToBits(r, 16);
  }

  lemma Padded(b: Byte)
    ensures ToBits(b, 16) == Zeros(8) + ToBits(b, 8)
  {
    HighLow(0, b);
    ZeroBits(8);
  }

  lemma OrOfPadded(s: seq<bool>, t: seq<bool>)
    requires |s| == |t| == 8
    ensures OrBits(Zeros(8) + s, Zeros(8) + t) == Zeros(8) + OrBits(s, t)
  {}

  lemma OrWithZero(a: Byte, b: Byte)
    ensures a == 0 ==> OrByte(a, b) == b
    ensures b == 0 ==> OrByte(a, b) == a
  {
    ZeroBits(8);
    if a == 0 {
      assert OrBits(ToBits(a, 8), ToBits(b, 8)) == ToBits(b, 8);
      ByteBack(b);
    }
    if b == 0 {
      assert OrBits(ToBits(a, 8), ToBits(b, 8)) == ToBits(a, 8);
      ByteBack(a);
    }
  }

  // ---- The buffer of bits not yet shown ----

  function Slack(valid: nat): nat { if valid <= 8 then 8 - valid else 0 }

  // The buffer holds the number r of so many bits: at the top of its low byte
  // while they fit in there.
  ghost predicate Holds(modbits: nat, valid: nat, r: nat) {
    valid <= 15 && modbits == r * Pow2(Slack(valid)) && r < Pow2(valid)
  }

  // The buffer, shifted to make room for another byte.
  lemma MoreBits(modbits: nat, valid: nat, r: nat)
    requires Holds(modbits, valid, r) && valid < 8
    ensures modbits * Pow2(valid) == r * 256 && r < 128
    ensures Shl(modbits, valid) == r * 256
    ensures r * 256 + 255 < Pow2(valid + 8)
  {
    Pow2Sixteen();
    Pow2Sum(8 - valid, valid);
    Pow2Sum(valid, 8);
    Regroup(r, Pow2(8 - valid), Pow2(valid));
    Less(valid, 8);
  }

  lemma Regroup(a: nat, b: nat, c: nat)
    ensures a * b * c == a * (b * c)
  {}

  lemma HoldsPlainly(modbits: nat, valid: nat)
    requires 8 <= valid <= 15 && modbits < Pow2(valid)
    ensures Holds(modbits, valid, modbits)
  {
    assert Slack(valid) == 0 && Pow2(0) == 1;
  }

  lemma Refilled(modbits: nat, valid: nat, r: nat, b: Byte)
    requires Holds(modbits, valid, r) && valid < 8
    ensures Holds(Or16(Shl(modbits, valid), b), valid + 8, r * 256 + b)
    ensures b == 0 ==> Holds(Shl(modbits, valid), valid + 8, r * 256)
  {
    MoreBits(modbits, valid, r);
    OrDisjoint(r, b);
    HoldsPlainly(r * 256 + b, valid + 8);
  }

  lemma {:induction false} Less(a: nat, b: nat)
    requires a < b
    ensures 2 * Pow2(a) <= Pow2(b)
    decreases b
  {
    if a + 1 < b {
      Less(a, b - 1);
    }
  }

  // What is left when n bits have been shifted out into the high byte.
  lemma Taken(modbits: nat, valid: nat, r: nat, n: nat)
    requires Holds(modbits, valid, r) && n <= valid < n + 8 && n <= 8
    ensures var m := Shl(modbits, n - (if valid > 8 then valid - 8 else 0));
      m / 256 == High(r, valid - n) && Holds(m % 256, valid - n, Low(r, valid - n))
  {
    var k := valid - n;
    ShiftedOut(modbits, valid, r, n);
    Pow2Sum(k, 8 - k);
    Pow2Small();
    SplitProduct(r, Pow2(k), Pow2(8 - k));
    OutFits(r, k, n);
  }

  lemma ShiftedOut(modbits: nat, valid: nat, r: nat, n: nat)
    requires Holds(modbits, valid, r) && n <= valid < n + 8 && n <= 8
    ensures modbits * Pow2(n - (if valid > 8 then valid - 8 else 0)) == r * Pow2(8 - (valid - n))
  {
    if valid <= 8 {
      Pow2Sum(8 - valid, n);
      Regroup(r, Pow2(8 - valid), Pow2(n));
    } else {
      assert Pow2(0) == 1;
    }
  }

  lemma OutFits(r: nat, k: nat, n: nat)
    requires k < 8 && n <= 8 && r < Pow2(k + n)
    ensures r * Pow2(8 - k) < 0x1_0000
  {
    Pow2Sum(k + n, 8 - k);
    Pow2Sixteen();
    if n < 8 { Less(n + 8, 16); }
    assert Pow2(k + n) * Pow2(8 - k) <= 0x1_0000;
    Smaller(r, Pow2(k + n), Pow2(8 - k));
  }

  lemma Smaller(a: nat, b: nat, c: nat)
    requires a < b && c > 0
    ensures a * c < b * c
  {
    Monotone(c, 1, b - a);
    assert b * c - a * c == c * (b - a);
  }

  lemma SplitProduct(r: nat, p: nat, q: nat)
    requires p > 0 && q > 0 && p * q == 256
    ensures r * q / 256 == r / p && r * q % 256 == r % p * q
  {
    var h, l := r / p, r % p;
    assert r * q == (p * h + l) * q == 256 * h + l * q by {
      assert p * h * q == (p * q) * h;
    }
    Smaller(l, p, q);
    DivMod(r * q, 256, h, l * q);
  }

  lemma FirstBits(stale: nat, next: nat)
    requires stale < 256 && next < 256
    ensures Holds(Or16(Shl(stale, 0), next), 8, Or16(stale, next))
    ensures next == 0 ==> Holds(Shl(stale, 0), 8, Or16(stale, next))
    ensures ToBits(0, 0) + ToBits(Or16(stale, next), 8) == ToBits(Or16(stale, next), 8)
  {
    OrOfBytes(stale, next);
    assert Pow2(0) == 1 && Shl(stale, 0) == stale;
    Pow2Sixteen();
    HoldsPlainly(Or16(stale, next), 8);
  }

  lemma OutOfRest(r: nat, k: nat, n: nat)
    requires r < Pow2(k + n)
    ensures High(r, k) < Pow2(n)
    ensures ToBits(High(r, k), n) + ToBits(Low(r, k), k) == ToBits(r, k + n)
  {
    ToBitsSplit(r, n, k);
    HighFits(r, n, k);
  }

  lemma NothingLeft(modbits: nat, valid: nat, r: nat)
    requires Holds(modbits, valid, r)
    ensures valid == 0 ==> modbits == 0 && r == 0
  {
    assert Pow2(0) == 1;
  }

  lemma HighFits(r: nat, n: nat, k: nat)
    requires r < Pow2(n + k)
    ensures High(r, k) < Pow2(n)
  {
    Pow2Sum(n, k);
    if High(r, k) >= Pow2(n) {
      Monotone(Pow2(k), Pow2(n), High(r, k));
    }
  }

  // Shift n bits into the high byte, and take them out of there.
  method ShiftOut(modbits: nat, valid: nat, n: nat, ghost r: nat) returns (v: nat, left: nat, ghost r': nat)
    requires Holds(modbits, valid, r) && n <= valid < n + 8 && n <= 8
    ensures v < Pow2(n) && left < 256
    ensures Holds(left, valid - n, r') && (valid == n ==> left == 0 && r' == 0)
    ensures ToBits(v, n) + ToBits(r', valid - n) == ToBits(r, valid)
  {
    var m := Shl(modbits, n - (if valid > 8 then valid - 8 else 0));
    v := m / 256;
    left := m % 256;
    Taken(modbits, valid, r, n);
    OutOfRest(r, valid - n, n);
    r' := Low(r, valid - n);
    NothingLeft(left, valid - n, r');
  }

  // The number that the buffer holds with another byte read into it.
  lemma Read(modbits: nat, valid: nat, r: nat, next: nat) returns (r': nat)
    requires valid < 8 && modbits < 256 && next < 256
    requires if valid == 0 then r == 0 else Holds(modbits, valid, r)
    ensures Holds(Or16(Shl(modbits, valid), next), valid + 8, r')
    ensures next == 0 ==> Holds(Shl(modbits, valid), valid + 8, r')
    ensures ToBits(r', valid + 8) == ToBits(r, valid) + ToBits(Or16(if valid == 0 then modbits else 0, next), 8)
  {
    hide Or16, Shl, OrByte, ToBits, Holds, Pow2;
    if valid == 0 {
      r' := Or16(modbits, next);
      FirstBits(modbits, next);
    } else {
      r' := r * 256 + next;
      Refilled(modbits, valid, r, next);
      Appended(r, valid, next);
      OrOfBytes(0, next);
    }
  }

  // ---- Brightness ----

  // From a value of n bits to one of 8.
  function Cook(v: nat, modulation: nat): nat {
    match modulation
    case 0 => if v != 0 then 255 else 0
    case 1 => v * 85
    case 2 => Widen(v * 9)
    case 3 => v * 17
    case 5 => Widen(v)
    case _ => v
  }

  // From 6 bits to 8: the top two again at the bottom.
  function Widen(w: nat): nat { w * 4 + w / 16 }

  // For every depth there is a name for, black is 0, white 255, and anything
  // else in proportion, by less than a level.
  lemma CookIsProportional(v: nat, modulation: nat)
    requires modulation in {0, 1, 2, 3, 5, 7} && v < Pow2(modulation + 1)
    ensures var top := Pow2(modulation + 1) - 1;
      && -top < Cook(v, modulation) * top - 255 * v < top
      && Cook(v, modulation) < 256
      && (Cook(v, modulation) == 0 <==> v == 0)
      && (Cook(v, modulation) == 255 <==> v == top)
  {
    Pow2Small();
    if modulation == 2 {
      WidenIsProportional(v * 9);
    } else if modulation == 5 {
      WidenIsProportional(v);
    }
  }

  // Exactly: the bits of the value, again and again from the top one on.
  lemma CookRepeats(v: nat, modulation: nat)
    requires modulation in {0, 1, 2, 3, 5, 7} && v < Pow2(modulation + 1)
    ensures forall i :: 0 <= i < 8 ==> ToBits(Cook(v, modulation), 8)[i] == ToBits(v, modulation + 1)[i % (modulation + 1)]
  {
    hide ToBits, Cook;
    match modulation
    case 0 => OneBitRepeats(v);
    case 1 => TwoBitsRepeat(v);
    case 2 => ThreeBitsRepeat(v);
    case 3 => FourBitsRepeat(v);
    case 5 => SixBitsRepeat(v);
    case _ => assert Cook(v, modulation) == v by { AsItIs(v); }
  }

  lemma AsItIs(v: nat)
    ensures Cook(v, 7) == v
  {}

  lemma TwoBitsRepeat(v: nat)
    requires v < Pow2(2)
    ensures forall i :: 0 <= i < 8 ==> ToBits(Cook(v, 1), 8)[i] == ToBits(v, 2)[i % 2]
  {
    hide ToBits, Pow2;
    assert Pow2(2) == 4 by { Pow2Small(); }
    TwoParts(v, v, 2, 2);
    TwoParts(v * 5, v, 4, 2);
    TwoParts(v * 21, v, 6, 2);
    FourTwos(ToBits(v, 2));
  }

  lemma ThreeBitsRepeat(v: nat)
    requires v < Pow2(3)
    ensures forall i :: 0 <= i < 8 ==> ToBits(Cook(v, 2), 8)[i] == ToBits(v, 3)[i % 3]
  {
    hide ToBits, Pow2;
    UpperTwo(v);
    assert Pow2(3) == 8 && Pow2(2) == 4 by { Pow2Small(); }
    TwoParts(v, v, 3, 3);
    NineSixteenths(v);
    TwoParts(v * 9, v / 2, 6, 2);
    ThreesAndTwo(ToBits(v, 3), ToBits(v / 2, 2));
  }

  lemma UpperTwo(v: nat)
    ensures ToBits(v, 3)[..2] == ToBits(v / 2, 2)
  {}

  lemma NineSixteenths(v: nat)
    requires v < 8
    ensures v * 9 / 16 == v / 2 < 4
  {}

  lemma FourBitsRepeat(v: nat)
    requires v < Pow2(4)
    ensures forall i :: 0 <= i < 8 ==> ToBits(Cook(v, 3), 8)[i] == ToBits(v, 4)[i % 4]
  {
    hide ToBits, Pow2;
    assert Pow2(4) == 16 by { Pow2Small(); }
    TwoParts(v, v, 4, 4);
    TwoFours(ToBits(v, 4));
  }

  lemma SixBitsRepeat(v: nat)
    requires v < Pow2(6)
    ensures forall i :: 0 <= i < 8 ==> ToBits(Cook(v, 5), 8)[i] == ToBits(v, 6)[i % 6]
  {
    hide ToBits, Pow2;
    assert Pow2(6) == 64 && Pow2(4) == 16 && Pow2(2) == 4 by { Pow2Small(); }
    ToBitsSplit(v, 2, 4);
    TwoParts(v, v / 16, 6, 2);
    SixAndTwo(ToBits(v, 6), ToBits(v / 16, 2));
  }

  lemma OneBitRepeats(v: nat)
    requires v < 2
    ensures forall i :: 0 <= i < 8 ==> ToBits(Cook(v, 0), 8)[i] == ToBits(v, 1)[i % 1]
  {
    if v == 0 {
      ZeroBits(8);
      ZeroBits(1);
    } else {
      assert ToBits(255, 8) == [true, true, true, true, true, true, true, true];
    }
  }

  lemma TwoParts(h: nat, l: nat, n: nat, k: nat)
    requires l < Pow2(k)
    ensures ToBits(h * Pow2(k) + l, n + k) == ToBits(h, n) + ToBits(l, k)
  {
    DivMod(h * Pow2(k) + l, Pow2(k), h, l);
    ToBitsSplit(h * Pow2(k) + l, n, k);
  }

  lemma FourTwos(b: seq<bool>)
    requires |b| == 2
    ensures forall i :: 0 <= i < 8 ==> (b + b + b + b)[i] == b[i % 2]
  {}

  lemma TwoFours(b: seq<bool>)
    requires |b| == 4
    ensures forall i :: 0 <= i < 8 ==> (b + b)[i] == b[i % 4]
  {}

  lemma SixAndTwo(b: seq<bool>, t: seq<bool>)
    requires |b| == 6 && t == b[..2]
    ensures forall i :: 0 <= i < 8 ==> (b + t)[i] == b[i % 6]
  {}

  lemma ThreesAndTwo(b: seq<bool>, t: seq<bool>)
    requires |b| == 3 && t == b[..2]
    ensures forall i :: 0 <= i < 8 ==> (b + b + t)[i] == b[i % 3]
  {}

  lemma WidenIsProportional(w: nat)
    requires w < 64
    ensures -63 < Widen(w) * 63 - 255 * w < 63 && Widen(w) < 256
    ensures (Widen(w) == 0 <==> w == 0) && (Widen(w) == 255 <==> w == 63)
  {
    var q := w / 16;
    assert 16 * q <= w < 16 * q + 16 && 0 <= q <= 3;
  }

  // ---- The stream of values ----

  predicate ValidOptions(o: LaserOptions) {
    0 <= o.steps < WIDTH && 0 <= o.pulseUs && 0 <= o.power < 1024 && 0 <= o.modulation < 8
  }

  lemma CountOne(events: seq<Event>, i: nat, s: Progress, j: Job)
    requires i < |events|
    ensures var s' := AfterEvent(events[i], s, j);
      s.shown + CarrySteps(s.ctr, j.steps, j.total, Ticks(events[i..])) ==
      s'.shown + CarrySteps(s'.ctr, j.steps, j.total, Ticks(events[i + 1..]))
  {
    assert events[i..][1..] == events[i + 1..];
  }

  lemma LateOne(events: seq<Event>, i: nat, s: Progress, j: Job)
    requires i < |events|
    ensures Late(events[i..], s, j) <==>
      Starves(events[i], s, j) || Late(events[i + 1..], AfterEvent(events[i], s, j), j)
  {
    assert events[i..][0] == events[i] && events[i..][1..] == events[i + 1..];
  }

  lemma AtTheEnd(events: seq<Event>, s: Progress, j: Job)
    ensures !Late(events[|events|..], s, j)
    ensures CarrySteps(s.ctr, j.steps, j.total, Ticks(events[|events|..])) == 0
  {}

  // The counter does not depend on the deliveries.
  lemma SameCounter(e: Event, s: Progress, t: Progress, j: Job)
    requires s.ctr == t.ctr && s.shown == t.shown
    ensures AfterEvent(e, s, j).ctr == AfterEvent(e, t, j).ctr
    ensures AfterEvent(e, s, j).shown == AfterEvent(e, t, j).shown
  {}

  // Pulses are spread evenly about the middles of their intervals; a
  // continuous line is modulated from its first tick on.
  function StartCounter(mode: LaserMode, total: nat): int {
    Register(if mode.pulsed then -(total / 2) else -1)
  }

  lemma ShowOne(shown: seq<nat>, v: nat, n: nat)
    ensures Groups(shown + [v], n) == Groups(shown, n) + ToBits(v, n)
  {
    GroupsConcat(shown, [v], n);
    assert Groups([v], n) == ToBits(v, n) + Groups([], n);
  }

  lemma ByteBitsOf(c: seq<Byte>)
    ensures ByteBits(c) == if c == [] then [] else ToBits(c[0], 8) + ByteBits(c[1..])
  {}

  lemma OneLonger<T>(s: seq<T>, t: seq<T>)
    requires |t| == |s| + 1 && t[..|s|] == s
    ensures t == s + [t[|s|]]
  {}

  lemma FitOne(values: seq<nat>, v: nat, n: nat)
    requires AllFit(values, n) && v < Pow2(n)
    ensures AllFit(values + [v], n)
  {}

  lemma MovedAcross(shown: seq<nat>, v: nat, n: nat, pending: seq<bool>, left: seq<bool>)
    requires pending == ToBits(v, n) + left
    ensures Groups(shown + [v], n) + left == Groups(shown, n) + pending
  {
    ShowOne(shown, v, n);
  }

  lemma Delivered(shown: seq<bool>, bits: seq<bool>, c: seq<Byte>, b: Byte)
    ensures shown + (bits + ByteBits(c + [b])) == shown + (bits + ByteBits(c)) + ToBits(b, 8)
  {
    ByteBitsConcat(c, [b]);
    assert ByteBits([b]) == ToBits(b, 8) + ByteBits([]);
    assert ByteBits(c + [b]) == ByteBits(c) + ToBits(b, 8);
    assert bits + (ByteBits(c) + ToBits(b, 8)) == (bits + ByteBits(c)) + ToBits(b, 8);
  }

  lemma Extend(data: seq<Byte>, k: nat, before: seq<bool>)
    requires k < |data|
    ensures before + ByteBits(data[..k + 1]) == before + ByteBits(data[..k]) + ToBits(data[k], 8)
  {
    assert data[..k + 1] == data[..k] + [data[k]];
    ByteBitsConcat(data[..k], [data[k]]);
    assert ByteBits([data[k]]) == ToBits(data[k], 8) + ByteBits([]);
  }

  ghost predicate AllFit(values: seq<nat>, n: nat) {
    forall i :: 0 <= i < |values| ==> values[i] < Pow2(n)
  }

  // Equal streams, equal values.
  lemma {:induction false} ValuesAreUnique(values: seq<nat>, pixels: seq<nat>, n: nat, left: seq<bool>, more: seq<bool>)
    requires n > 0 && |values| <= |pixels|
    requires AllFit(values, n) && AllFit(pixels, n)
    requires Groups(values, n) + left == Groups(pixels, n) + more
    ensures values == pixels[..|values|]
    ensures left == Groups(pixels[|values|..], n) + more
    decreases |values|
  {
    if values == [] {
      assert Groups(values, n) + left == left;
      assert pixels[0..] == pixels;
    } else {
      var rest, rest' := Groups(values[1..], n) + left, Groups(pixels[1..], n) + more;
      SplitFirst(values, n, left);
      SplitFirst(pixels, n, more);
      FirstOfStream(values[0], pixels[0], n, rest, rest');
      ValuesAreUnique(values[1..], pixels[1..], n, left, more);
      assert pixels[1..][|values| - 1..] == pixels[|values|..];
    }
  }

  lemma SplitFirst(values: seq<nat>, n: nat, left: seq<bool>)
    requires values != []
    ensures Groups(values, n) + left == ToBits(values[0], n) + (Groups(values[1..], n) + left)
  {}

  lemma FirstOfStream(v: nat, p: nat, n: nat, rest: seq<bool>, rest': seq<bool>)
    requires v < Pow2(n) && p < Pow2(n)
    requires ToBits(v, n) + rest == ToBits(p, n) + rest'
    ensures v == p && rest == rest'
  {
    var s := ToBits(v, n) + rest;
    assert s[..n] == ToBits(v, n) && s[..n] == ToBits(p, n);
    assert s[n..] == rest && s[n..] == rest';
    FromToBits(v, n);
    FromToBits(p, n);
  }

  // No byte is fetched before its bits are needed: after k values of n bits,
  // it is the least number of bytes that holds k * n bits.
  lemma FetchedBytes(shown: seq<nat>, n: nat, rest: nat, valid: nat, waiting: seq<Byte>, supplied: seq<Byte>)
    requires valid < 8
    requires Groups(shown, n) + (ToBits(rest, valid) + ByteBits(waiting)) == ByteBits(supplied)
    ensures |supplied| - |waiting| == Needed(|shown|, n) && valid == BitsLeft(|shown|, n)
  {
    GroupsLength(shown, n);
    assert |Groups(shown, n) + (ToBits(rest, valid) + ByteBits(waiting))| == n * |shown| + (valid + 8 * |waiting|);
  }

  // A job begins with the buffer of the one before declared empty, but not
  // cleared.  Bits that are left in it show up in the first byte that is read,
  // whatever that is, unless there are none.
  lemma StaleByte(stale: Byte)
    ensures (forall next: Byte :: Or16(stale, next) == next) <==> stale == 0
  {
    forall next: Byte ensures stale == 0 ==> Or16(stale, next) == next {
      OrOfBytes(stale, next);
    }
    OrOfBytes(stale, 0);
    assert Or16(stale, 0) == stale;
  }

  // After k values of n bits these are the bits of the last byte fetched from
  // n * k on.  So the next job's first byte is read as it is, whatever it is, if
  // and only if these bits of the data are zero.
  lemma LeftoverBits(l: Laser, supplied: seq<Byte>)
    requires l.Valid() && l.Clean() && l.Stream() == ByteBits(supplied)
    ensures var from, to := l.Depth() * |l.shown|, 8 * Needed(|l.shown|, l.Depth());
      && from <= to <= 8 * |supplied|
      && ((forall next: Byte :: Or16(l.modbits, next) == next) <==> (forall i :: from <= i < to ==> !ByteBits(supplied)[i]))
  {
    var bits, more := ToBits(l.rest, l.validBits), ByteBits(l.raster.Contents());
    FetchedBytes(l.shown, l.Depth(), l.rest, l.validBits, l.raster.Contents(), supplied);
    GroupsLength(l.shown, l.Depth());
    StaleByte(l.modbits);
    Middle(Groups(l.shown, l.Depth()), bits, more);
    hide ToBits, ByteBits, Groups;
    NoneLeft(l.modbits, l.validBits, l.rest);
  }

  lemma Middle(a: seq<bool>, b: seq<bool>, c: seq<bool>)
    ensures b == Zeros(|b|) <==> forall i :: |a| <= i < |a| + |b| ==> !(a + (b + c))[i]
  {
    assert forall i :: |a| <= i < |a| + |b| ==> (a + (b + c))[i] == b[i - |a|];
    if forall i :: |a| <= i < |a| + |b| ==> !(a + (b + c))[i] {
      forall i | 0 <= i < |b| ensures !b[i] {
        assert (a + (b + c))[|a| + i] == b[i];
      }
    }
  }

  lemma NoneLeft(modbits: nat, valid: nat, r: nat)
    requires valid < 8 && if valid == 0 then r == 0 && modbits == 0 else Holds(modbits, valid, r)
    ensures modbits == 0 <==> ToBits(r, valid) == Zeros(valid)
  {
    hide ToBits, Pow2;
    ZeroBits(valid);
    if valid > 0 && ToBits(r, valid) == Zeros(valid) {
      ZerosLeft(modbits, valid, r);
    } else if valid > 0 && modbits == 0 {
      ZeroFactor(r, Pow2(Slack(valid)));
    }
  }

  lemma ZeroFactor(r: int, p: int)
    requires r * p == 0 && p > 0
    ensures r == 0
  {}

  // Zeros that are left do no harm.
  lemma ZerosLeft(modbits: nat, valid: nat, r: nat)
    requires Holds(modbits, valid, r) && ToBits(r, valid) == Zeros(valid)
    ensures modbits == 0
  {
    ZeroBits(valid);
    FromToBits(r, valid);
    FromToBits(0, valid);
  }

  // ---- The interrupt ----

  const RASTER_SIZE := 64

  class Laser {
    const raster: Ring<Byte>
    var masked: bool       // the laser's bit of the axis mask
    var ctr: int
    var steps: nat
    var total: nat
    var pulseUs: nat
    var power: nat
    var mode: LaserMode
    var lastMode: LaserMode
    var modulation: nat
    var validBits: nat
    var modbits: nat
    var intensity: nat     // of the last laser_fire
    var pulseTimer: nat    // of the last laser_start_pulse_timer
    ghost var rest: nat    // the number that the buffer holds
    ghost var shown: seq<nat>  // raster values of the current job

    ghost predicate Valid()
      reads this`modulation, this`modbits, this`validBits, this`rest, raster
    {
      && raster.Valid() && raster.size == RASTER_SIZE
      && modulation < 8 && modbits < 256
      && (if validBits == 0 then rest == 0 else validBits < 8 && Holds(modbits, validBits, rest))
    }

    // No bits are left over from the job before.
    ghost predicate Clean()
      reads this`modbits, this`validBits
    {
      validBits == 0 ==> modbits == 0
    }

    function Depth(): (n: nat)
      reads this`modulation
    {
      modulation + 1
    }

    // The bits to be shown, as far as they have arrived.
    ghost function Pending(): seq<bool>
      requires raster.Valid()
      reads this`rest, this`validBits, raster, raster.data
    {
      ToBits(rest, validBits) + ByteBits(raster.Contents())
    }

    ghost predicate Starving()
      requires Valid()
      reads this`modulation, this`modbits, this`validBits, this`rest, raster, raster.data
    {
      validBits <= modulation && raster.Contents() == []
    }

    // What the next value is taken from: when the ring is empty, zeros.
    ghost function Supply(): seq<bool>
      requires Valid()
      reads this`modulation, this`modbits, this`validBits, this`rest, raster, raster.data
    {
      if validBits > modulation then Pending()
      else
        var c := raster.Contents();
        var first: nat := if c == [] then 0 else c[0];
        ToBits(rest, validBits) + ToBits(Or16(if validBits == 0 then modbits else 0, first), 8) +
        ByteBits(if c == [] then [] else c[1..])
    }

    lemma CleanSupply()
      requires Valid() && Clean()
      ensures Supply() == Pending() + if Starving() then Zeros(8) else []
    {
      var c := raster.Contents();
      OrOfBytes(0, if c == [] then 0 else c[0]);
      ZeroBits(8);
      ByteBitsOf(c);
      hide Or16, OrByte, ToBits, ByteBits, Holds, Zeros;
      if validBits <= modulation && c != [] {
        assert ToBits(rest, validBits) + ToBits(c[0], 8) + ByteBits(c[1..]) ==
          ToBits(rest, validBits) + (ToBits(c[0], 8) + ByteBits(c[1..]));
      }
    }

    constructor ()
      ensures Valid() && Clean() && fresh(raster) && fresh(raster.data)
      ensures raster.Contents() == [] && !masked && validBits == 0
    {
      raster := new Ring<Byte>(RASTER_SIZE);
      masked, ctr, steps, total, pulseUs, power := false, 0, 0, 0, 0, 0;
      mode, lastMode := LASER_MODE_OFF, LASER_MODE_OFF;
      modulation, validBits, modbits := 0, 0, 0;
      intensity, pulseTimer := 0, 0;
      rest, shown := 0, [];
    }

    // Another 8 bits, if there are not enough left for the next value.
    method Refill()
      requires Valid() && validBits <= modulation
      modifies this`modbits, this`validBits, this`rest, raster`tail
      ensures raster.Valid() && validBits == old(validBits) + 8 && Holds(modbits, validBits, rest)
      ensures Pending() == old(Supply())
    {
      hide Or16, Shl, ToBits, Holds, ByteBits, Pow2;
      ghost var c := raster.Contents();
      ghost var stale, next := modbits, 0;
      if !raster.IsEmpty() {
        var b := raster.Get();
        modbits := Or16(Shl(modbits, validBits), b);
        next := b;
        assert c == [next] + raster.Contents();
        assert c[1..] == raster.Contents();
      } else {
        modbits := Shl(modbits, validBits);
      }
      rest := Read(stale, validBits, rest, next);
      validBits := validBits + 8;
    }

    // The next value, of as many bits as the depth asks for.
    method NextValue() returns (v: nat)
      requires Valid()
      modifies this`modbits, this`validBits, this`rest, raster`tail
      ensures Valid() && Clean()
      ensures v < Pow2(Depth())
      ensures ToBits(v, Depth()) + Pending() == old(Supply())
      ensures validBits + Depth() == old(validBits) + if old(validBits) <= modulation then 8 else 0
    {
      if validBits <= modulation {
        Refill();
      }
      v := Extract();
    }

    method Extract() returns (v: nat)
      requires raster.Valid() && raster.size == RASTER_SIZE && modulation < 8
      requires Depth() <= validBits < Depth() + 8 && Holds(modbits, validBits, rest)
      modifies this`modbits, this`validBits, this`rest
      ensures Valid() && Clean()
      ensures v < Pow2(Depth())
      ensures validBits == old(validBits) - Depth()
      ensures ToBits(v, Depth()) + Pending() == old(Pending())
    {
      hide ToBits, ByteBits, Pow2;
      ghost var bits, more := ToBits(rest, validBits), ByteBits(raster.Contents());
      v, modbits, rest := ShiftOut(modbits, validBits, modulation + 1, rest);
      validBits := validBits - (1 + modulation);
      assert bits == ToBits(v, Depth()) + ToBits(rest, validBits);
      assert ToBits(v, Depth()) + (ToBits(rest, validBits) + more) == bits + more;
    }

    // Without raster data the laser fires with its set power.
    method FirePlainly()
      modifies this`intensity, this`pulseTimer
      ensures Fired(power / 4, pulseUs, old(intensity), old(pulseTimer))
    {
      if mode.pulsed {
        intensity := power / 4;
        pulseTimer := pulseUs;
      }
      if mode.continuous {
        intensity := power / 4;
      }
      if mode == LASER_MODE_OFF {
        intensity := 0;
      }
    }

    method FireModulated(level: nat)
      modifies this`intensity, this`pulseTimer
      ensures Shone(level, pulseUs, old(intensity), old(pulseTimer))
    {
      if mode.continuous {
        intensity := level;
      }
      if mode.pulsed && level != 0 {
        intensity := 255;
        pulseTimer := pulseUs * level / 256;
      }
    }

    // The laser fires.
    method Pulse()
      requires Valid()
      modifies this`modbits, this`validBits, this`rest, this`intensity, this`pulseTimer, this`shown, raster`tail
      ensures Valid() && (mode.modulated || old(Clean()) ==> Clean())
      ensures !mode.modulated ==>
        && Fired(power / 4, pulseUs, old(intensity), old(pulseTimer))
        && shown == old(shown) && Pending() == old(Pending()) && validBits == old(validBits)
      ensures mode.modulated ==>
        && |shown| == |old(shown)| + 1 && shown[..|old(shown)|] == old(shown)
        && Showed(shown[|old(shown)|], old(Supply()), old(validBits))
        && Shone(Cook(shown[|old(shown)|], modulation), pulseUs, old(intensity), old(pulseTimer))
    {
      if mode.modulated {
        var v := NextValue();
        shown := shown + [v];
        FireModulated(Cook(v, modulation));
      } else {
        FirePlainly();
      }
    }

    // Take over the laser options of the next job, unless the laser is to stay
    // off.  The bits that are left in the buffer are declared invalid, but not
    // cleared.
    method Load(options: LaserOptions, stepsTotal: nat)
      requires Valid() && ValidOptions(options)
      modifies this
      ensures Valid() && shown == [] && validBits == 0 && modbits == old(modbits)
      ensures Pending() == old(ByteBits(raster.Contents()))
      ensures mode == options.mode && total == stepsTotal && masked == (mode != LASER_MODE_OFF)
      ensures mode != LASER_MODE_OFF ==>
        && steps == options.steps && pulseUs == options.pulseUs && power == options.power && modulation == options.modulation
        && intensity == old(intensity)
      ensures mode == LASER_MODE_OFF ==> steps == pulseUs == power == modulation == intensity == 0
      ensures ctr == StartCounter(mode, total) && pulseTimer == old(pulseTimer) && lastMode == LASER_MODE_OFF
    {
      DropBits();
      SetOptions(options, stepsTotal);
    }

    method SetOptions(options: LaserOptions, stepsTotal: nat)
      requires ValidOptions(options)
      modifies this`lastMode, this`masked, this`steps, this`pulseUs, this`power, this`mode, this`modulation, this`total, this`ctr, this`intensity
      ensures mode == options.mode && total == stepsTotal && masked == (mode != LASER_MODE_OFF)
      ensures mode != LASER_MODE_OFF ==>
        && steps == options.steps && pulseUs == options.pulseUs && power == options.power && modulation == options.modulation
        && intensity == old(intensity)
      ensures mode == LASER_MODE_OFF ==> steps == pulseUs == power == modulation == intensity == 0
      ensures ctr == StartCounter(mode, total) && lastMode == LASER_MODE_OFF
    {
      lastMode := LASER_MODE_OFF;
      steps, pulseUs, power := 0, 0, 0;
      mode, modulation := LASER_MODE_OFF, 0;
      masked := options.mode != LASER_MODE_OFF;
      if masked {
        steps, pulseUs, power := options.steps, options.pulseUs, options.power;
        mode, modulation := options.mode, options.modulation;
      }
      total := stepsTotal;
      ctr := StartCounter(mode, total);
      if mode == LASER_MODE_OFF {
        intensity := 0;
      }
    }

    // The job is done.
    method EndJob()
      modifies this`mode
      ensures mode == LASER_MODE_OFF
    {
      mode := LASER_MODE_OFF;
    }

    method DropBits()
      requires Valid()
      modifies this`validBits, this`rest, this`shown
      ensures Valid() && shown == [] && validBits == 0
      ensures Pending() == old(ByteBits(raster.Contents()))
    {
      validBits := 0;
      rest, shown := 0, [];
      assert ToBits(rest, validBits) == [];
    }

    // A continuous beam is switched off before the first pulse, and when the
    // laser is to be off; a pulse that is still on, before a continuous beam.
    method ChangeMode()
      modifies this`lastMode, this`intensity, this`pulseTimer
      ensures lastMode == mode
      ensures intensity ==
        if old(lastMode) != mode && ((old(lastMode).continuous && mode.pulsed) || mode == LASER_MODE_OFF) then 0 else old(intensity)
      ensures pulseTimer == if old(lastMode) != mode && old(lastMode).pulsed && mode.continuous then 0 else old(pulseTimer)
    {
      if lastMode != mode {
        if lastMode.continuous && mode.pulsed {
          intensity := 0;
        }
        if lastMode.pulsed && mode.continuous {
          pulseTimer := 0;
        }
        if mode == LASER_MODE_OFF {
          intensity := 0;
        }
        lastMode := mode;
      }
    }

    // What the interrupt does before it looks at the motors.
    method Tick() returns (ghost fired: bool)
      requires Valid()
      modifies this`ctr, this`lastMode, this`modbits, this`validBits, this`rest, this`intensity, this`pulseTimer, this`shown, raster`tail
      ensures Valid() && (old(Clean()) ==> Clean()) && lastMode == mode
      ensures masked ==> (ctr, fired) == AdvanceCarry(old(ctr), steps, total)
      ensures !masked ==> !fired && ctr == old(ctr)
      ensures fired && mode.modulated ==>
        && |shown| == |old(shown)| + 1 && shown[..|old(shown)|] == old(shown)
        && Showed(shown[|old(shown)|], old(Supply()), old(validBits))
      ensures !(fired && mode.modulated) ==>
        shown == old(shown) && Pending() == old(Pending()) && validBits == old(validBits)
      ensures var changed := old(lastMode) != mode;
        var lit := if changed && ((old(lastMode).continuous && mode.pulsed) || mode == LASER_MODE_OFF) then 0 else old(intensity);
        var us := if changed && old(lastMode).pulsed && mode.continuous then 0 else old(pulseTimer);
        if !fired then intensity == lit && pulseTimer == us
        else if mode.modulated then
          var level := Cook(shown[|old(shown)|], modulation);
          && intensity == (if mode.pulsed && level != 0 then 255 else if mode.continuous then level else lit)
          && pulseTimer == if mode.pulsed && level != 0 then pulseUs * level / 256 else us
        else
          && intensity == (if mode.pulsed || mode.continuous then power / 4 else if mode == LASER_MODE_OFF then 0 else lit)
          && pulseTimer == if mode.pulsed then pulseUs else us
    {
      hide AdvanceCarry, Groups, ToBits, ByteBits, Or16, Cook;
      ChangeMode();
      fired := false;
      if masked {
        var s := AdvanceCarry(ctr, steps, total);
        ctr := s.0;
        fired := s.1;
        if s.1 {
          Pulse();
        }
      }
    }

    // The stream of values so far, followed by what has arrived and was not
    // shown yet.
    ghost function Stream(): seq<bool>
      requires Valid()
      reads this`modulation, this`modbits, this`validBits, this`rest, this`shown, raster, raster.data
    {
      Groups(shown, Depth()) + Pending()
    }

    // What is left of the bytes fetched, and how many wait in the ring, after
    // some values, with as many bytes delivered, and some missed.
    ghost predicate Accounts(fed: nat, missed: nat)
      requires Valid()
      reads this`modulation, this`modbits, this`validBits, this`rest, this`shown, raster, raster.data
    {
      && validBits == BitsLeft(|shown|, Depth())
      && |raster.Contents()| + Needed(|shown|, Depth()) == fed + missed
    }

    // A tick that fires fetches a byte if the bits left are not enough, and misses
    // it if there is none.
    method TickInAccounts(ghost fed: nat, ghost missed: nat) returns (ghost fired: bool, ghost starved: bool)
      requires Valid() && masked && mode.modulated && Clean() && Accounts(fed, missed)
      modifies this`ctr, this`lastMode, this`modbits, this`validBits, this`rest, this`intensity, this`pulseTimer, this`shown, raster`tail
      ensures Valid() && Clean()
      ensures (ctr, fired) == AdvanceCarry(old(ctr), steps, total)
      ensures fired ==>
        && |shown| == |old(shown)| + 1 && shown[..|old(shown)|] == old(shown)
        && Showed(shown[|old(shown)|], old(Supply()), old(validBits))
      ensures !fired ==> shown == old(shown) && Pending() == old(Pending())
      ensures starved == (fired && old(Starving())) == (fired && fed + missed < Needed(|shown|, Depth()))
      ensures Accounts(fed, missed + if starved then 1 else 0)
    {
      hide AdvanceCarry, Supply, Needed, BitsLeft, ToBits, ByteBits, Holds;
      ghost var k, n, waiting := |shown|, Depth(), |raster.Contents()|;
      SupplyLength();
      NeededForNext(k, n);
      starved := Starving();
      fired := Tick();
      if fired {
        PendingLength();
        OneMoreValue(k, n, fed + missed, waiting, |raster.Contents()|);
      } else {
        PendingLength();
      }
      starved := starved && fired;
    }

    lemma PendingLength()
      requires raster.Valid()
      ensures |Pending()| == validBits + 8 * |raster.Contents()|
    {}

    lemma SupplyLength()
      requires Valid()
      ensures |Pending()| == validBits + 8 * |raster.Contents()|
      ensures |Supply()| == |Pending()| + if Starving() then 8 else 0
    {}

    // A tick moves bits from one side to the other; it adds nothing, unless
    // the ring is empty when data are needed.
    method TickInStream(ghost fed: nat, ghost missed: nat) returns (ghost starved: bool)
      requires Serving() && Accounts(fed, missed)
      modifies this`ctr, this`lastMode, this`modbits, this`validBits, this`rest, this`intensity, this`pulseTimer, this`shown, raster`tail
      ensures Serving()
      ensures var s := AdvanceCarry(old(ctr), steps, total);
        && ctr == s.0 && |shown| == |old(shown)| + AvrFlags.Bit(s.1)
        && starved == (s.1 && fed + missed < Needed(|shown|, Depth()))
      ensures Accounts(fed, missed + if starved then 1 else 0)
      ensures !starved ==> Stream() == old(Stream())
    {
      hide AdvanceCarry, Groups, Supply, AllFit, Accounts, Holds, ToBits, ByteBits, Starving;
      ghost var before, pending, supply := shown, Pending(), Supply();
      assert !Starving() ==> supply == pending by { CleanSupply(); }
      ghost var fired;
      fired, starved := TickInAccounts(fed, missed);
      if fired {
        ghost var v := shown[|before|];
        OneLonger(before, shown);
        FitOne(before, v, Depth());
        if !starved {
          MovedAcross(before, v, Depth(), pending, Pending());
        }
      }
    }

    // A byte from the parser.
    method Arrive(b: Byte)
      requires Valid() && !raster.IsFull()
      modifies raster`head, raster.data
      ensures Valid() && Stream() == old(Stream()) + ToBits(b, 8)
      ensures raster.Contents() == old(raster.Contents()) + [b]
    {
      ghost var c, bits := raster.Contents(), ToBits(rest, validBits);
      raster.Put(b);
      Delivered(Groups(shown, Depth()), bits, c, b);
    }

    // One event: before is what was to be shown first, and data what the
    // parser delivers after it, fed bytes of it so far.
    method Handle(e: Event, data: seq<Byte>, fed: nat, ghost waited: nat, ghost missed: nat, ghost before: seq<bool>)
      returns (fed': nat, ghost missed': nat)
      requires Midway(data, fed, waited, missed, before)
      modifies this`ctr, this`lastMode, this`modbits, this`validBits, this`rest, this`intensity, this`pulseTimer, this`shown
      modifies raster, raster.data
      ensures Midway(data, fed', waited, missed', before) && missed <= missed'
      ensures var j, s := JobOf(waited + |data|), Progress(old(ctr), |old(shown)|, waited + fed);
        var s' := AfterEvent(e, s, j);
        && ctr == s'.ctr && |shown| == s'.shown
        && (missed == 0 ==> waited + fed' == s'.fed && (missed' > 0 <==> Starves(e, s, j)))
    {
      fed', missed' := fed, missed;
      match e {
        case TimerTick =>
          ghost var starves := TickInStream(waited + fed, missed);
          missed' := missed + if starves then 1 else 0;
        case Delivery =>
          if fed < |data| && !raster.IsFull() {
            Extend(data, fed, before);
            Arrive(data[fed]);
            fed' := fed + 1;
          }
      }
    }

    // fed bytes of the data have been delivered after waited others, whose bits
    // are before, and so many missed.
    ghost predicate Midway(data: seq<Byte>, fed: nat, waited: nat, missed: nat, before: seq<bool>)
      reads this, raster, raster.data
    {
      && Serving() && fed <= |data| && Accounts(waited + fed, missed)
      && (missed == 0 ==> Stream() == before + ByteBits(data[..fed]))
    }

    ghost predicate Serving()
      reads this, raster, raster.data
    {
      Valid() && masked && mode.modulated && Clean() && AllFit(shown, Depth())
    }

    function JobOf(size: nat): Job
      reads this`steps, this`total, this`modulation
    {
      Job(steps, total, Depth(), size)
    }

    // A job, from when it is fetched: ticks, and between them bytes that the
    // parser delivers, as many as there is room for.  Zeros are shown instead of
    // a byte if and only if one is late.
    method Serve(data: seq<Byte>, events: seq<Event>) returns (fed: nat)
      requires Serving() && shown == [] && validBits == 0
      modifies this`ctr, this`lastMode, this`modbits, this`validBits, this`rest, this`intensity, this`pulseTimer, this`shown
      modifies raster, raster.data
      ensures Serving() && fed <= |data|
      ensures |shown| == CarrySteps(old(ctr), steps, total, Ticks(events))
      ensures var waited := |old(raster.Contents())|;
        var late := Late(events, Progress(old(ctr), 0, waited), JobOf(waited + |data|));
        var fetched := waited + fed - |raster.Contents()|;
        && validBits == BitsLeft(|shown|, Depth())
        && fetched <= Needed(|shown|, Depth())
        && (fetched == Needed(|shown|, Depth()) <==> !late)
        && (!late ==> Stream() == old(Pending()) + ByteBits(data[..fed]))
    {
      hide Midway, Late, CarrySteps, Ticks, Needed, BitsLeft, AllFit, Stream, Pending, Holds;
      ghost var waited, before, missed := |raster.Contents()|, Pending(), 0;
      Beginning(data, before);
      fed, missed := Interleave(data, events, waited, before);
      Closing(data, fed, waited, missed, before);
    }

    method Interleave(data: seq<Byte>, events: seq<Event>, ghost waited: nat, ghost before: seq<bool>)
      returns (fed: nat, ghost missed: nat)
      requires Midway(data, 0, waited, 0, before) && shown == []
      modifies this`ctr, this`lastMode, this`modbits, this`validBits, this`rest, this`intensity, this`pulseTimer, this`shown
      modifies raster, raster.data
      ensures Midway(data, fed, waited, missed, before)
      ensures |shown| == CarrySteps(old(ctr), steps, total, Ticks(events))
      ensures missed > 0 <==> Late(events, Progress(old(ctr), 0, waited), JobOf(waited + |data|))
    {
      hide Midway, Late, Starves, AfterEvent, CarrySteps, Ticks;
      fed, missed := 0, 0;
      assert events[0..] == events;
      ghost var j, s := JobOf(waited + |data|), Progress(ctr, 0, waited);
      ghost var count, late := CarrySteps(ctr, steps, total, Ticks(events)), Late(events, s, j);
      var i := 0;
      while i < |events|
        invariant 0 <= i <= |events| && Midway(data, fed, waited, missed, before)
        invariant s.ctr == ctr && s.shown == |shown| && (missed == 0 ==> s.fed == waited + fed)
        invariant s.shown + CarrySteps(s.ctr, j.steps, j.total, Ticks(events[i..])) == count
        invariant late <==> missed > 0 || Late(events[i..], s, j)
      {
        CountOne(events, i, s, j);
        LateOne(events, i, s, j);
        ghost var given := Progress(ctr, |shown|, waited + fed);
        SameCounter(events[i], s, given, j);
        fed, missed := Handle(events[i], data, fed, waited, missed, before);
        s := AfterEvent(events[i], s, j);
        i := i + 1;
      }
      AtTheEnd(events, s, j);
    }

    lemma Beginning(data: seq<Byte>, before: seq<bool>)
      requires Serving() && shown == [] && validBits == 0 && before == Pending()
      ensures Midway(data, 0, |raster.Contents()|, 0, before)
    {
      assert Stream() == before + ByteBits(data[..0]);
    }

    lemma Closing(data: seq<Byte>, fed: nat, waited: nat, missed: nat, before: seq<bool>)
      requires Midway(data, fed, waited, missed, before)
      ensures Serving() && fed <= |data| && validBits == BitsLeft(|shown|, Depth())
      ensures waited + fed - |raster.Contents()| + missed == Needed(|shown|, Depth())
      ensures missed == 0 ==> Stream() == before + ByteBits(data[..fed])
    {}

    // The value v was the first of the supply.
    ghost predicate Showed(v: nat, supply: seq<bool>, valid: nat)
      requires raster.Valid()
      reads this`modulation, this`validBits, this`rest, raster, raster.data
    {
      && v < Pow2(Depth())
      && ToBits(v, Depth()) + Pending() == supply
      && validBits + Depth() == valid + if valid <= modulation then 8 else 0
    }

    // Brightness is power in a continuous line, and length in one of pulses.
    ghost predicate Shone(level: nat, us: nat, intensity0: nat, timer0: nat)
      reads this`mode, this`intensity, this`pulseTimer
    {
      && intensity == (if mode.pulsed && level != 0 then 255 else if mode.continuous then level else intensity0)
      && pulseTimer == if mode.pulsed && level != 0 then us * level / 256 else timer0
    }

    ghost predicate Fired(strength: nat, us: nat, intensity0: nat, timer0: nat)
      reads this`mode, this`intensity, this`pulseTimer
    {
      && intensity == (if mode.pulsed || mode.continuous then strength else if mode == LASER_MODE_OFF then 0 else intensity0)
      && pulseTimer == if mode.pulsed then us else timer0
    }
  }

  // ---- Jobs without raster data ----

  // After any number of ticks of the job the laser has fired as often as the
  // counter says, with the power and for the time of the job's options.
  method BurnPlainly(l: Laser, options: LaserOptions, total: nat, ticks: nat) returns (ghost fires: nat)
    requires l.Valid() && ValidOptions(options) && options.mode != LASER_MODE_OFF && !options.mode.modulated
    modifies l, l.raster`tail
    ensures l.Valid() && fires == CarrySteps(StartCounter(options.mode, total), options.steps, total, ticks)
    ensures fires > 0 ==> l.intensity == options.power / 4
    ensures fires > 0 && options.mode.pulsed ==> l.pulseTimer == options.pulseUs
    ensures fires == 0 ==> l.intensity == old(l.intensity)
    ensures l.mode == options.mode && (ticks > 0 ==> l.lastMode == l.mode)
  {
    hide AdvanceCarry, CarrySteps, StartCounter, Cook, Laser.Supply, Laser.Pending, Laser.Clean, Laser.Showed, Holds;
    l.Load(options, total);
    ghost var count := CarrySteps(l.ctr, options.steps, total, ticks);
    fires := 0;
    for i := 0 to ticks
      invariant l.Valid() && l.masked && l.mode == options.mode && l.power == options.power && l.pulseUs == options.pulseUs
      invariant l.steps == options.steps && l.total == total
      invariant l.lastMode == if i == 0 then LASER_MODE_OFF else l.mode
      invariant fires + CarrySteps(l.ctr, options.steps, total, ticks - i) == count
      invariant l.intensity == if fires > 0 then options.power / 4 else old(l.intensity)
      invariant fires > 0 && options.mode.pulsed ==> l.pulseTimer == options.pulseUs
    {
      OneTickLess(l.ctr, options.steps, total, ticks - i);
      ghost var fired := l.Tick();
      fires := fires + if fired then 1 else 0;
    }
    OneTickLess(l.ctr, options.steps, total, 0);
  }

  lemma OneTickLess(ctr: int, add: int, sub: int, n: nat)
    ensures var s := AdvanceCarry(ctr, add, sub);
      CarrySteps(ctr, add, sub, n) == if n == 0 then 0 else (if s.1 then 1 else 0) + CarrySteps(s.0, add, sub, n - 1)
  {}

  // Once a job is done and no other has come, the laser is dark from the next
  // tick on.
  method Darken(l: Laser, ticks: nat)
    requires l.Valid() && (l.lastMode != LASER_MODE_OFF || l.intensity == 0)
    modifies l, l.raster`tail
    ensures l.Valid() && (ticks > 0 ==> l.intensity == 0)
  {
    l.EndJob();
    for i := 0 to ticks
      invariant l.Valid() && l.mode == LASER_MODE_OFF
      invariant l.intensity == 0 || (i == 0 && l.lastMode != LASER_MODE_OFF)
    {
      ghost var fired := l.Tick();
    }
  }

  const ONE_PIXEL := LaserOptions(1, 0, 0, LaserMode(true, false, true), 0)

  // A line of one pixel of one bit: it is shown as dark if the byte is, or what
  // was left over from the line before.  The other seven bits are left.
  method OnePixel(l: Laser, b: Byte)
    requires l.Valid() && l.raster.Contents() == []
    modifies l, l.raster, l.raster.data
    ensures l.Valid() && l.raster.Contents() == []
    ensures var x := Or16(old(l.modbits), b); l.shown == [x / 128] && l.modbits == x % 128 * 2
  {
    hide ToBits, ByteBits, Or16, Pow2, Groups, Holds, Slack;
    l.Load(ONE_PIXEL, 1);
    l.Arrive(b);
    SupplyOfOne(l, b);
    OnePulse(l, Or16(l.modbits, b));
  }

  method OnePulse(l: Laser, ghost x: nat)
    requires l.Valid() && l.masked && l.mode == ONE_PIXEL.mode && l.modulation == 0 && l.shown == [] && l.validBits == 0
    requires l.steps == l.total == 1 && l.ctr == WIDTH - 1
    requires |l.raster.Contents()| == 1 && x < 256 && l.Supply() == ToBits(x, 8)
    modifies l, l.raster
    ensures l.Valid() && l.raster.Contents() == []
    ensures l.shown == [x / 128] && l.modbits == x % 128 * 2
  {
    hide ToBits, ByteBits, Or16, Pow2, Groups, Slack, Cook, Holds, Laser.Supply, Laser.Showed;
    ghost var fired := l.Tick();
    PulseShows(l, x);
  }

  lemma PulseShows(l: Laser, x: nat)
    requires l.Valid() && l.modulation == 0 && |l.shown| == 1 && l.Showed(l.shown[0], ToBits(x, 8), 0) && x < 256
    ensures l.raster.Contents() == [] && l.shown == [x / 128] && l.modbits == x % 128 * 2
  {
    hide ToBits, ByteBits, Pow2, Slack, Holds;
    assert l.validBits == 7 && Holds(l.modbits, 7, l.rest);
    l.PendingLength();
    NoBytes(l.rest, 7);
    ByteInTwo(x, l.shown[0], l.rest, l.modbits);
  }

  lemma SupplyOfOne(l: Laser, b: Byte)
    requires l.Valid() && l.validBits == 0 && l.raster.Contents() == [b]
    ensures l.Supply() == ToBits(Or16(l.modbits, b), 8) && Or16(l.modbits, b) < 256
  {
    OrOfBytes(l.modbits, b);
    NoBytes(l.rest, 0);
    assert ToBits(l.rest, 0) == [];
  }

  lemma NoBytes(r: nat, n: nat)
    ensures ToBits(r, n) + ByteBits([]) == ToBits(r, n) && ByteBits([]) == []
  {}

  lemma ByteInTwo(x: nat, v: nat, r: nat, modbits: nat)
    requires x < 256 && v < Pow2(1) && Holds(modbits, 7, r) && ToBits(v, 1) + ToBits(r, 7) == ToBits(x, 8)
    ensures v == x / 128 && modbits == x % 128 * 2
  {
    Pow2Small();
    ToBitsSplit(x, 1, 7);
    hide ToBits;
    FirstOfStream(v, High(x, 7), 1, ToBits(r, 7), ToBits(Low(x, 7), 7));
    FromToBits(r, 7);
    FromToBits(Low(x, 7), 7);
  }

  lemma OrZero(a: Byte, b: Byte)
    ensures a == 0 ==> Or16(a, b) == b
    ensures b == 0 ==> Or16(a, b) == a
  {
    OrOfBytes(a, b);
  }

  // A black pixel sent as a byte of ones makes the next line begin with a black
  // pixel, too, although its data are zeros.
  method StaleBits() returns (l: Laser)
    ensures fresh(l) && l.Valid() && l.shown == [1]
  {
    hide Or16, Laser.Valid, Laser.Clean;
    OrZero(0, 255);
    OrZero(254, 0);
    l := new Laser();
    OnePixel(l, 255);
    OnePixel(l, 0);
  }
}
