// Bit streams, most significant bit first.
module Bits {
  import opened Arithmetic

  type Byte = b: int | 0 <= b < 256

  // The low n bits of v.
  function ToBits(v: nat, n: nat): (s: seq<bool>)
    ensures |s| == n
  {
    if n == 0 then [] else ToBits(v / 2, n - 1) + [v % 2 == 1]
  }

  function FromBits(s: seq<bool>): (v: nat)
    ensures v < Pow2(|s|)
  {
    if s == [] then 0
    else 2 * FromBits(s[..|s| - 1]) + if s[|s| - 1] then 1 else 0
  }

  lemma {:induction false} FromToBits(v: nat, n: nat)
    requires v < Pow2(n)
    ensures FromBits(ToBits(v, n)) == v
  {
    if n > 0 {
      FromToBits(v / 2, n - 1);
      assert ToBits(v, n)[..n - 1] == ToBits(v / 2, n - 1);
    }
  }

  lemma {:induction false} ToFromBits(s: seq<bool>)
    ensures ToBits(FromBits(s), |s|) == s
  {
    if s != [] {
      ToFromBits(s[..|s| - 1]);
      assert s == s[..|s| - 1] + [s[|s| - 1]];
    }
  }

  // v without, and reduced to, its low n bits.
  function High(v: nat, n: nat): nat { Quotient(v, Pow2(n)) }
  function Low(v: nat, n: nat): (r: nat)
    ensures r < Pow2(n)
  {
    v % Pow2(n)
  }

  lemma {:induction false} ToBitsSplit(v: nat, m: nat, n: nat)
    ensures ToBits(v, m + n) == ToBits(High(v, n), m) + ToBits(Low(v, n), n)
  {
    if n == 0 {
      assert High(v, 0) == v && Low(v, 0) == 0;
    } else {
      ToBitsSplit(v / 2, m, n - 1);
      SplitHalf(v, Pow2(n - 1));
      assert ToBits(v, m + n) == ToBits(v / 2, m + (n - 1)) + [v % 2 == 1];
    }
  }

  lemma SplitHalf(v: nat, p: nat)
    requires p > 0
    ensures v / 2 / p == v / (2 * p)
    ensures v % (2 * p) / 2 == v / 2 % p
    ensures v % (2 * p) % 2 == v % 2
  {
    var h, b := v / 2, v % 2;
    var q, r := h / p, h % p;
    assert v == 2 * h + b && h == p * q + r;
    assert v == (2 * p) * q + (2 * r + b) by { assert 2 * (p * q) == (2 * p) * q; }
    DivMod(v, 2 * p, q, 2 * r + b);
  }

  // All bits of a string of bytes.
  function ByteBits(s: seq<Byte>): (b: seq<bool>)
    ensures |b| == 8 * |s|
  {
    if s == [] then [] else ToBits(s[0], 8) + ByteBits(s[1..])
  }

  lemma {:induction false} ByteBitsConcat(s: seq<Byte>, t: seq<Byte>)
    ensures ByteBits(s + t) == ByteBits(s) + ByteBits(t)
  {
    if s == [] {
      assert s + t == t;
    } else {
      ByteBitsConcat(s[1..], t);
      assert (s + t)[1..] == s[1..] + t;
    }
  }

  // Numbers of n bits each.
  function Groups(s: seq<nat>, n: nat): seq<bool> {
    if s == [] then [] else ToBits(s[0], n) + Groups(s[1..], n)
  }

  lemma {:induction false} GroupsLength(s: seq<nat>, n: nat)
    ensures |Groups(s, n)| == n * |s|
  {
    if s != [] {
      GroupsLength(s[1..], n);
      assert n * |s| == n + n * (|s| - 1);
    }
  }

  lemma {:induction false} GroupsConcat(s: seq<nat>, t: seq<nat>, n: nat)
    ensures Groups(s + t, n) == Groups(s, n) + Groups(t, n)
  {
    hide ToBits;
    if s == [] {
      assert s + t == t;
    } else {
      GroupsConcat(s[1..], t, n);
      FirstGroup(s, t, n);
      assert ToBits(s[0], n) + (Groups(s[1..], n) + Groups(t, n)) == ToBits(s[0], n) + Groups(s[1..], n) + Groups(t, n);
    }
  }

  lemma FirstGroup(s: seq<nat>, t: seq<nat>, n: nat)
    requires s != []
    ensures Groups(s + t, n) == ToBits(s[0], n) + Groups(s[1..] + t, n)
  {
    assert (s + t)[1..] == s[1..] + t;
  }

  function Zeros(n: nat): (s: seq<bool>)
    ensures |s| == n
  {
    seq(n, _ => false)
  }

  lemma {:induction false} ZeroBits(n: nat)
    ensures ToBits(0, n) == Zeros(n)
  {
    if n > 0 {
      ZeroBits(n - 1);
    }
  }

  // ---- Bitwise operators ----

  function OrBits(s: seq<bool>, t: seq<bool>): (r: seq<bool>)
    requires |s| == |t|
    ensures |r| == |s|
  {
    seq(|s|, i requires 0 <= i < |s| => s[i] || t[i])
  }

  function XorBits(s: seq<bool>, t: seq<bool>): (r: seq<bool>)
    requires |s| == |t|
    ensures |r| == |s|
  {
    seq(|s|, i requires 0 <= i < |s| => s[i] != t[i])
  }

  lemma EightBits(s: seq<bool>)
    requires |s| == 8
    ensures FromBits(s) < 256
  {
    Pow2Small();
  }

  function OrByte(a: Byte, b: Byte): Byte {
    EightBits(OrBits(ToBits(a, 8), ToBits(b, 8)));
    FromBits(OrBits(ToBits(a, 8), ToBits(b, 8)))
  }

  function XorByte(a: Byte, b: Byte): Byte {
    EightBits(XorBits(ToBits(a, 8), ToBits(b, 8)));
    FromBits(XorBits(ToBits(a, 8), ToBits(b, 8)))
  }

  lemma OrOfConcat(h: seq<bool>, l: seq<bool>)
    ensures OrBits(h + Zeros(|l|), Zeros(|h|) + l) == h + l
  {}

  // Bits that do not overlap: or is plus.
  lemma OrOfParts(x: Byte, l: Byte, h: nat, k: nat)
    requires k <= 8 && l < Pow2(k) && x == h * Pow2(k) && x + l < 256
    ensures OrByte(x, l) == x + l
  {
    Parts(x + l, h, l, k);
    Parts(x, h, 0, k);
    Parts(l, 0, l, k);
    ZeroBits(k);
    ZeroBits(8 - k);
    OrIsSum(x, l, x + l, ToBits(h, 8 - k), ToBits(l, k));
  }

  lemma OrIsSum(x: Byte, y: Byte, sum: Byte, a: seq<bool>, b: seq<bool>)
    requires ToBits(x, 8) == a + Zeros(|b|) && ToBits(y, 8) == Zeros(|a|) + b && ToBits(sum, 8) == a + b
    ensures OrByte(x, y) == sum
  {
    OrOfConcat(a, b);
    ByteBack(sum);
  }

  lemma ByteBack(b: Byte)
    ensures FromBits(ToBits(b, 8)) == b
  {
    Pow2Small();
    FromToBits(b, 8);
  }

  lemma Parts(x: nat, h: nat, l: nat, k: nat)
    requires k <= 8 && l < Pow2(k) && x == h * Pow2(k) + l
    ensures ToBits(x, 8) == ToBits(h, 8 - k) + ToBits(l, k)
  {
    hide ToBits, Pow2;
    ToBitsSplit(x, 8 - k, k);
    DivMod(x, Pow2(k), h, l);
  }
}
