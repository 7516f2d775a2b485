// The arithmetic flags of the bundled AVR simulator: a table of 8192 entries,
// looked up by the operands' sign and half-sign bits and the nine bit result.
module AvrFlags {
  import opened Arithmetic

  import Bits

  type Byte = Bits.Byte

  datatype Flags = Flags(c: bool, z: bool, n: bool, v: bool, s: bool, h: bool)

  const TABLE_SIZE := 8192

  predicate Bit7(b: int) { b / 128 % 2 == 1 }
  predicate Bit3(b: int) { b / 8 % 2 == 1 }
  function Bit(b: bool): int { if b then 1 else 0 }

  // b & 0x88
  function And88(b: int): int { 128 * Bit(Bit7(b)) + 8 * Bit(Bit3(b)) }

  // (res & 0x1ff) | (v & 0x1e00), where one multiplication by 0x104 moves all
  // four operand bits into place.
  function TableIndex(v1: Byte, v2: Byte, res: int): int {
    var v := (2 * And88(v1) + And88(v2)) * 0x104;
    res % 512 + v / 512 % 16 * 512
  }

  // The four operand bits arrive where the table expects them.
  lemma IndexBits(v1: Byte, v2: Byte, res: int)
    ensures TableIndex(v1, v2, res) ==
      res % 512 + 512 * Bit(Bit7(v2)) + 1024 * Bit(Bit7(v1)) + 2048 * Bit(Bit3(v2)) + 4096 * Bit(Bit3(v1))
    ensures 0 <= TableIndex(v1, v2, res) < TABLE_SIZE
  {
    var a7, a3, b7, b3 := Bit(Bit7(v1)), Bit(Bit3(v1)), Bit(Bit7(v2)), Bit(Bit3(v2));
    var v := (2 * And88(v1) + And88(v2)) * 0x104;
    DivMod(v, 512, 130 * a7 + 8 * a3 + 65 * b7 + 4 * b3, 64 * a3 + 32 * b3);
    DivMod(v / 512, 16, 8 * a7 + 4 * b7, 2 * a7 + 8 * a3 + b7 + 4 * b3);
  }

  // What an entry says about the operands and the result.
  function Result(i: int): int { i % 512 }
  predicate V2Sign(i: int) { i / 512 % 2 == 1 }
  predicate V1Sign(i: int) { i / 1024 % 2 == 1 }
  function HalfBits(i: int): int { i / 2048 % 4 }

  lemma IndexDecodes(v1: Byte, v2: Byte, res: int)
    ensures var i := TableIndex(v1, v2, res);
      && Result(i) == res % 512
      && V1Sign(i) == Bit7(v1) && V2Sign(i) == Bit7(v2)
      && HalfBits(i) == Bit(Bit3(v2)) + 2 * Bit(Bit3(v1))
  {
    IndexBits(v1, v2, res);
    var i, r := TableIndex(v1, v2, res), res % 512;
    var a7, a3, b7, b3 := Bit(Bit7(v1)), Bit(Bit3(v1)), Bit(Bit7(v2)), Bit(Bit3(v2));
    FieldsOf(i, r, b7, a7, b3, a3);
  }

  lemma FieldsOf(i: int, r: int, f0: int, f1: int, f2: int, f3: int)
    requires 0 <= r < 512 && 0 <= f0 <= 1 && 0 <= f1 <= 1 && 0 <= f2 <= 1 && 0 <= f3 <= 1
    requires i == r + 512 * f0 + 1024 * f1 + 2048 * f2 + 4096 * f3
    ensures i % 512 == r && i / 512 % 2 == f0 && i / 1024 % 2 == f1 && i / 2048 % 4 == f2 + 2 * f3
  {
    DivMod(i, 512, f0 + 2 * f1 + 4 * f2 + 8 * f3, r);
    DivMod(i / 512, 2, f1 + 2 * f2 + 4 * f3, f0);
    DivMod(i, 1024, f1 + 2 * f2 + 4 * f3, r + 512 * f0);
    DivMod(i / 1024, 2, f2 + 2 * f3, f1);
    DivMod(i, 2048, f2 + 2 * f3, r + 512 * f0 + 1024 * f1);
  }

  function Zns(result: int, f: Flags): Flags {
    var z := result % 256 == 0;
    var n := Bit7(result);
    f.(z := z, n := n, s := n != f.v)
  }

  function Half(result: int, halfBits: int): bool {
    halfBits == 3 || (!Bit3(result) && halfBits != 0)
  }

  function AddDecoded(result: int, sign1: bool, sign2: bool, halfBits: int): Flags {
    Zns(result, Flags(result >= 256, false, false,
                      sign1 == sign2 && Bit7(result) != sign1, false, Half(result, halfBits)))
  }

  function SubDecoded(result: int, sign1: bool, sign2: bool, halfBits: int): Flags {
    Zns(result, Flags(result >= 256, false, false,
                      Bit7(result) == sign2 && sign1 != sign2, false, Half(result, halfBits)))
  }

  function AddEntry(i: int): Flags {
    AddDecoded(Result(i), V1Sign(i), V2Sign(i), HalfBits(i))
  }

  function SubEntry(i: int): Flags {
    SubDecoded(Result(i), V1Sign(i), V2Sign(i), HalfBits(i))
  }
}
