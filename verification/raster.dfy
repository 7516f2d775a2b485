// Picture data on the host: pixels are packed into bytes, and these sent as
// base64 text.
module RasterData {
  import opened Arithmetic
  import opened Bits
  import Base64

  // Whether p & (1 << b) is not zero.
  predicate BitOf(p: nat, b: nat) { Quotient(p, Pow2(b)) % 2 == 1 }

  // The bits of a pixel from the top one down.
  method AppendPixel(bits: seq<bool>, p: nat, bpp: nat) returns (lastbits: seq<bool>)
    ensures lastbits == bits + ToBits(p, bpp)
  {
    lastbits := bits;
    var b := bpp;
    FirstPart(p, bpp);
    while b > 0
      invariant 0 <= b <= bpp
      invariant lastbits == bits + ToBits(High(p, b), bpp - b)
    {
      b := b - 1;
      NextPart(p, b, bpp);
      lastbits := lastbits + [BitOf(p, b)];
    }
    assert High(p, 0) == p;
  }

  lemma FirstPart(p: nat, n: nat)
    ensures ToBits(High(p, n), 0) == []
  {}

  lemma NextPart(p: nat, b: nat, n: nat)
    requires b < n
    ensures ToBits(High(p, b), n - b) == ToBits(High(p, b + 1), n - (b + 1)) + [BitOf(p, b)]
  {
    HalfHigh(p, Pow2(b));
    assert ToBits(High(p, b), n - b) == ToBits(High(p, b) / 2, n - b - 1) + [High(p, b) % 2 == 1];
  }

  lemma HalfHigh(p: nat, d: nat)
    requires d > 0
    ensures Quotient(p, d) / 2 == Quotient(p, 2 * d)
  {
    var q := p / d;
    var h := q / 2;
    assert d * q == d * (2 * h + q % 2) == (2 * d) * h + d * (q % 2);
    assert 0 <= d * (q % 2) <= d;
    DivMod(p, 2 * d, h, d * (q % 2) + p % d);
  }

  // Take the first eight bits out of the list.
  method PopByte(bits: seq<bool>) returns (n: Byte, lastbits: seq<bool>)
    requires |bits| >= 8
    ensures ToBits(n, 8) + lastbits == bits
  {
    lastbits := bits;
    var v: nat := 0;
    var b := 8;
    Pow2Small();
    while b > 0
      invariant 0 <= b <= 8 && lastbits == bits[8 - b..]
      invariant v == FromBits(bits[..8 - b]) * Pow2(b)
    {
      b := b - 1;
      OneMoreBit(bits, 7 - b, Pow2(b));
      v := v + Pow2(b) * if lastbits[0] then 1 else 0;
      lastbits := lastbits[1..];
    }
    assert v == FromBits(bits[..8]) < Pow2(8);
    n := v;
    ToFromBits(bits[..8]);
    assert bits == bits[..8] + bits[8..];
  }

  lemma OneMoreBit(bits: seq<bool>, k: nat, d: nat)
    requires k < |bits|
    ensures FromBits(bits[..k + 1]) * d == FromBits(bits[..k]) * (2 * d) + d * (if bits[k] then 1 else 0)
  {
    assert bits[..k + 1][..k] == bits[..k];
    Distribute(FromBits(bits[..k]), if bits[k] then 1 else 0, d);
  }

  lemma Distribute(v: nat, b: nat, d: nat)
    ensures (2 * v + b) * d == v * (2 * d) + d * b
  {}

  function Reversed<T>(s: seq<T>): (r: seq<T>)
    ensures |r| == |s| && forall i :: 0 <= i < |s| ==> r[i] == s[|s| - 1 - i]
  {
    if s == [] then [] else [s[|s| - 1]] + Reversed(s[..|s| - 1])
  }

  // Bits are collected until there are enough for a byte; the last byte is
  // filled up with zeros.
  method PackPixels(data: seq<nat>, bpp: nat) returns (res: seq<Byte>)
    requires 1 <= bpp <= 8
    ensures 0 <= 8 * |res| - bpp * |data| < 8
    ensures ByteBits(res) == Groups(data, bpp) + Zeros(8 * |res| - bpp * |data|)
  {
    res := [];
    var lastbits: seq<bool> := [];
    GroupsLength(data, bpp);
    assert ByteBits(res) == [] && Groups(data[..0], bpp) == [];
    hide ByteBits, Groups, ToBits;
    for i := 0 to |data|
      invariant |lastbits| < 8
      invariant ByteBits(res) + lastbits == Groups(data[..i], bpp)
    {
      lastbits := AppendPixel(lastbits, data[i], bpp);
      OnePixel(data, i, bpp);
      assert ByteBits(res) + lastbits == Groups(data[..i + 1], bpp);
      if |lastbits| >= 8 {
        var n;
        ghost var bits := lastbits;
        n, lastbits := PopByte(lastbits);
        OneByte(res, n, bits, lastbits);
        res := res + [n];
      }
    }
    assert data[..|data|] == data;
    if lastbits != [] {
      res := AppendLast(res, lastbits);
    }
  }

  // The byte that takes the remaining bits.
  method AppendLast(bytes: seq<Byte>, bits: seq<bool>) returns (res: seq<Byte>)
    requires 0 < |bits| < 8
    ensures |res| == |bytes| + 1 && ByteBits(res) == ByteBits(bytes) + bits + Zeros(8 - |bits|)
  {
    hide ToBits, FromBits;
    var full := FillUp(bits);
    var n, left := PopByte(full);
    assert left == [];
    OneByte(bytes, n, full, left);
    res := bytes + [n];
    assert ByteBits(res) == ByteBits(res) + left == ByteBits(bytes) + (bits + Zeros(8 - |bits|));
  }

  method FillUp(bits: seq<bool>) returns (lastbits: seq<bool>)
    requires |bits| <= 8
    ensures lastbits == bits + Zeros(8 - |bits|)
  {
    lastbits := bits;
    while |lastbits| < 8
      invariant |bits| <= |lastbits| <= 8
      invariant lastbits == bits + Zeros(|lastbits| - |bits|)
      decreases 8 - |lastbits|
    {
      lastbits := lastbits + [false];
    }
  }

  lemma OnePixel(data: seq<nat>, i: nat, bpp: nat)
    requires i < |data|
    ensures Groups(data[..i + 1], bpp) == Groups(data[..i], bpp) + ToBits(data[i], bpp)
  {
    assert data[..i + 1] == data[..i] + [data[i]];
    GroupsConcat(data[..i], [data[i]], bpp);
    assert Groups([data[i]], bpp) == ToBits(data[i], bpp) + Groups([], bpp);
  }

  lemma OneByte(res: seq<Byte>, n: Byte, bits: seq<bool>, left: seq<bool>)
    requires bits == ToBits(n, 8) + left
    ensures ByteBits(res + [n]) + left == ByteBits(res) + bits
  {
    ByteBitsConcat(res, [n]);
    assert ByteBits([n]) == ToBits(n, 8) + ByteBits([]);
    assert ByteBits(res) + (ToBits(n, 8) + left) == (ByteBits(res) + ToBits(n, 8)) + left;
  }

  // ---- Lines ----

  const FIRST_CHUNK := 15
  const CHUNK := 48

  // What is left after the first line goes out in equal pieces.
  function Pieces(s: seq<Byte>): seq<seq<Byte>> {
    if s == [] then [] else
      var n := Min(CHUNK, |s|);
      [s[..n]] + Pieces(s[n..])
  }

  function Chunked(s: seq<Byte>): seq<seq<Byte>> {
    var n := Min(FIRST_CHUNK, |s|);
    [s[..n]] + Pieces(s[n..])
  }

  function Flatten(chunks: seq<seq<Byte>>): seq<Byte> {
    if chunks == [] then [] else chunks[0] + Flatten(chunks[1..])
  }

  ghost predicate Short(chunks: seq<seq<Byte>>) { forall i :: 0 <= i < |chunks| ==> |chunks[i]| <= CHUNK }

  lemma {:induction false} PiecesJoin(s: seq<Byte>)
    ensures Flatten(Pieces(s)) == s && Short(Pieces(s))
  {
    if s != [] {
      var n := Min(CHUNK, |s|);
      PiecesJoin(s[n..]);
      assert Pieces(s)[1..] == Pieces(s[n..]) && s == s[..n] + s[n..];
    }
  }

  lemma ChunksJoin(s: seq<Byte>)
    ensures Flatten(Chunked(s)) == s && Short(Chunked(s))
  {
    var n := Min(FIRST_CHUNK, |s|);
    PiecesJoin(s[n..]);
    assert Chunked(s)[1..] == Pieces(s[n..]) && s == s[..n] + s[n..];
  }

  function Encoded(chunks: seq<seq<Byte>>): seq<string> {
    if chunks == [] then [] else ["$" + Base64.Encode(chunks[0])] + Encoded(chunks[1..])
  }

  lemma {:induction false} EncodedConcat(a: seq<seq<Byte>>, b: seq<seq<Byte>>)
    ensures Encoded(a + b) == Encoded(a) + Encoded(b)
  {
    hide Base64.Encode;
    if a == [] {
      assert a + b == b;
    } else {
      assert (a + b)[1..] == a[1..] + b && (a + b)[0] == a[0];
      assert Encoded(a + b) == ["$" + Base64.Encode(a[0])] + Encoded(a[1..] + b);
      EncodedConcat(a[1..], b);
    }
  }

  // The pixels of a line, backwards if asked for, as lines of text.
  method EncodePixelData(pixels: seq<nat>, reverse: bool, bpp: nat) returns (res: seq<string>, ghost bytes: seq<Byte>)
    requires 1 <= bpp <= 8
    ensures var data := if reverse then Reversed(pixels) else pixels;
      && 0 <= 8 * |bytes| - bpp * |data| < 8
      && ByteBits(bytes) == Groups(data, bpp) + Zeros(8 * |bytes| - bpp * |data|)
    ensures res == Encoded(Chunked(bytes))
  {
    var data := if reverse then Reversed(pixels) else pixels;
    var bytestring := PackPixels(data, bpp);
    bytes := bytestring;
    res := SplitAndEncode(bytestring);
  }

  method SplitAndEncode(bytes: seq<Byte>) returns (res: seq<string>)
    ensures res == Encoded(Chunked(bytes))
  {
    hide Base64.Encode;
    var n := Min(FIRST_CHUNK, |bytes|);
    res := ["$" + Base64.Encode(bytes[..n])];
    var bytestring := bytes[n..];
    ghost var done := [bytes[..n]];
    assert done[1..] == [];
    while |bytestring| > 0
      invariant done + Pieces(bytestring) == Chunked(bytes)
      invariant res == Encoded(done)
    {
      var m := Min(CHUNK, |bytestring|);
      EncodeMore(done, bytestring[..m]);
      assert done + ([bytestring[..m]] + Pieces(bytestring[m..])) == (done + [bytestring[..m]]) + Pieces(bytestring[m..]);
      done := done + [bytestring[..m]];
      res := res + ["$" + Base64.Encode(bytestring[..m])];
      bytestring := bytestring[m..];
    }
    assert done + [] == done;
  }

  lemma EncodeMore(chunks: seq<seq<Byte>>, c: seq<Byte>)
    ensures Encoded(chunks + [c]) == Encoded(chunks) + ["$" + Base64.Encode(c)]
  {
    hide Base64.Encode;
    EncodedConcat(chunks, [c]);
    assert [c][1..] == [];
  }
}
