// The simulated CPU: registers, status flags, the two generated tables, and
// the instructions the step counter macro is made of.
module AvrCpu {
  import opened AvrFlags
  import opened AvrAlu

  method GenAddTable() returns (table: seq<Flags>)
    ensures |table| == TABLE_SIZE
    ensures forall i :: 0 <= i < TABLE_SIZE ==> table[i] == AddEntry(i)
  {
    table := [];
    for i := 0 to TABLE_SIZE
      invariant |table| == i
      invariant forall k :: 0 <= k < i ==> table[k] == AddEntry(k)
    {
      var result := i % 512;
      var sreg := Flags(false, false, false, false, false, false);
      if V1Sign(i) == V2Sign(i) && Bit7(result) != V1Sign(i) { sreg := sreg.(v := true); }
      if result >= 256 { sreg := sreg.(c := true); }
      if HalfBits(i) == 3 || (!Bit3(result) && HalfBits(i) != 0) { sreg := sreg.(h := true); }
      sreg := UpdateZns(result, sreg);
      table := table + [sreg];
    }
  }

  method GenSubTable() returns (table: seq<Flags>)
    ensures |table| == TABLE_SIZE
    ensures forall i :: 0 <= i < TABLE_SIZE ==> table[i] == SubEntry(i)
  {
    table := [];
    for i := 0 to TABLE_SIZE
      invariant |table| == i
      invariant forall k :: 0 <= k < i ==> table[k] == SubEntry(k)
    {
      var result := i % 512;
      var sreg := Flags(false, false, false, false, false, false);
      if Bit7(result) == V2Sign(i) && V1Sign(i) != V2Sign(i) { sreg := sreg.(v := true); }
      if result >= 256 { sreg := sreg.(c := true); }
      if HalfBits(i) == 3 || (!Bit3(result) && HalfBits(i) != 0) { sreg := sreg.(h := true); }
      sreg := UpdateZns(result, sreg);
      table := table + [sreg];
    }
  }

  function UpdateZns(result: int, sreg: Flags): Flags {
    var sreg1 := if result % 256 == 0 then sreg.(z := true) else sreg;
    var sreg2 := if Bit7(result) then sreg1.(n := true) else sreg1;
    if sreg2.n != sreg2.v then sreg2.(s := true) else sreg2
  }

  method Lookup(table: seq<Flags>, v1: Byte, v2: Byte, res: int) returns (f: Flags, ghost i: int)
    requires |table| == TABLE_SIZE
    ensures 0 <= i < TABLE_SIZE && LookedUp(i, v1, v2, res % 512) && f == table[i]
  {
    IndexBits(v1, v2, res);
    LookupIsRight(v1, v2, res);
    i := TableIndex(v1, v2, res);
    f := table[TableIndex(v1, v2, res)];
  }

  lemma LowByte(n: int)
    requires -256 <= n < 512
    ensures n % 256 == if n >= 256 then n - 256 else if n < 0 then n + 256 else n
    ensures n % 512 == if n < 0 then n + 512 else n
  {}

  function Incremented(b: Byte): Byte { if b == 255 then 0 else b + 1 }

  // Equal but for the half carry.
  predicate Alike(f: Flags, g: Flags) { f == g.(h := f.h) }

  class Cpu {
    const reg: array<Byte>
    var sreg: Flags
    const addTable: seq<Flags>
    const subTable: seq<Flags>

    ghost predicate Valid()
      reads this
    {
      && reg.Length == 32
      && |addTable| == |subTable| == TABLE_SIZE
      && (forall i :: 0 <= i < TABLE_SIZE ==> addTable[i] == AddEntry(i))
      && (forall i :: 0 <= i < TABLE_SIZE ==> subTable[i] == SubEntry(i))
    }

    constructor ()
      ensures Valid() && fresh(reg)
    {
      reg := new Byte[32](_ => 0);
      sreg := Flags(false, false, false, false, false, false);
      var a := GenAddTable();
      var s := GenSubTable();
      addTable, subTable := a, s;
    }

    method DoAddition8(rd: int, rr: int, carry: bool)
      requires Valid() && 0 <= rd < 32 && 0 <= rr < 32
      modifies this`sreg, reg
      ensures Valid()
      ensures reg[..] == old(reg[..])[rd := AddResult(old(reg[rd]), old(reg[rr]), carry)]
      ensures sreg == AddFlags(old(reg[rd]), old(reg[rr]), carry)
    {
      var value1, value2 := reg[rd], reg[rr];
      var result := value1 + value2 + Bit(carry);
      reg[rd] := result % 256;
      LowByte(result);
      ghost var i;
      sreg, i := Lookup(addTable, value1, value2, result);
      AddTable(i, value1, value2, carry);
    }

    method DoSubtraction8(rd: int, value1: Byte, value2: Byte, carry: bool, useCarry: bool, writeback: bool)
      requires Valid() && 0 <= rd < 32
      modifies this`sreg, reg
      ensures Valid()
      ensures reg[..] == if writeback then old(reg[..])[rd := SubResult(value1, value2, carry)] else old(reg[..])
      ensures Alike(sreg, SubFlags(value1, value2, carry, useCarry, old(sreg.z), false))
    {
      var result := value1 - value2 - Bit(carry);
      if writeback {
        reg[rd] := result % 256;
      }
      LowByte(result);
      var f, i := Lookup(subTable, value1, value2, result);
      SubTable(i, value1, value2, carry);
      sreg := if useCarry then f.(z := f.z && sreg.z) else f;
    }

    method Add(rd: int, rr: int)
      requires Valid() && 0 <= rd < 32 && 0 <= rr < 32
      modifies this`sreg, reg
      ensures Valid()
      ensures reg[rd] == AddResult(old(reg[rd]), old(reg[rr]), false)
      ensures forall k :: 0 <= k < 32 && k != rd ==> reg[k] == old(reg[k])
      ensures sreg == AddFlags(old(reg[rd]), old(reg[rr]), false)
    {
      DoAddition8(rd, rr, false);
    }

    method Adc(rd: int, rr: int)
      requires Valid() && 0 <= rd < 32 && 0 <= rr < 32
      modifies this`sreg, reg
      ensures Valid()
      ensures reg[rd] == AddResult(old(reg[rd]), old(reg[rr]), old(sreg.c))
      ensures forall k :: 0 <= k < 32 && k != rd ==> reg[k] == old(reg[k])
      ensures sreg == AddFlags(old(reg[rd]), old(reg[rr]), old(sreg.c))
    {
      DoAddition8(rd, rr, sreg.c);
    }

    method Sub(rd: int, rr: int)
      requires Valid() && 0 <= rd < 32 && 0 <= rr < 32
      modifies this`sreg, reg
      ensures Valid()
      ensures reg[rd] == SubResult(old(reg[rd]), old(reg[rr]), false)
      ensures forall k :: 0 <= k < 32 && k != rd ==> reg[k] == old(reg[k])
      ensures Alike(sreg, SubFlags(old(reg[rd]), old(reg[rr]), false, false, old(sreg.z), false))
    {
      DoSubtraction8(rd, reg[rd], reg[rr], false, false, true);
    }

    method Sbc(rd: int, rr: int)
      requires Valid() && 0 <= rd < 32 && 0 <= rr < 32
      modifies this`sreg, reg
      ensures Valid()
      ensures reg[rd] == SubResult(old(reg[rd]), old(reg[rr]), old(sreg.c))
      ensures forall k :: 0 <= k < 32 && k != rd ==> reg[k] == old(reg[k])
      ensures Alike(sreg, SubFlags(old(reg[rd]), old(reg[rr]), old(sreg.c), true, old(sreg.z), false))
    {
      DoSubtraction8(rd, reg[rd], reg[rr], sreg.c, true, true);
    }

    method Cp(rd: int, rr: int)
      requires Valid() && 0 <= rd < 32 && 0 <= rr < 32
      modifies this`sreg, reg
      ensures Valid() && reg[..] == old(reg[..])
      ensures Alike(sreg, SubFlags(reg[rd], reg[rr], false, false, old(sreg.z), false))
    {
      DoSubtraction8(0, reg[rd], reg[rr], false, false, false);
    }

    method Cpc(rd: int, rr: int)
      requires Valid() && 0 <= rd < 32 && 0 <= rr < 32
      modifies this`sreg, reg
      ensures Valid() && reg[..] == old(reg[..])
      ensures Alike(sreg, SubFlags(reg[rd], reg[rr], old(sreg.c), true, old(sreg.z), false))
    {
      DoSubtraction8(0, reg[rd], reg[rr], sreg.c, true, false);
    }

    method Clr(rd: int)
      requires Valid() && 0 <= rd < 32
      modifies this`sreg, reg
      ensures Valid() && reg[rd] == 0 && sreg == Flags(old(sreg.c), true, false, false, false, old(sreg.h))
      ensures forall k :: 0 <= k < 32 && k != rd ==> reg[k] == old(reg[k])
    {
      reg[rd] := 0;
      sreg := UpdateZns(0, sreg.(z := false, n := false, v := false, s := false));
    }

    method Inc(rd: int)
      requires Valid() && 0 <= rd < 32
      modifies this`sreg, reg
      ensures Valid() && reg[rd] == if old(reg[rd]) == 255 then 0 else old(reg[rd]) + 1
      ensures var r, overflow := reg[rd], old(reg[rd]) == 127;
        sreg == Flags(old(sreg.c), r == 0, r >= 128, overflow, overflow != (r >= 128), old(sreg.h))
      ensures forall k :: 0 <= k < 32 && k != rd ==> reg[k] == old(reg[k])
    {
      reg[rd] := Incremented(reg[rd]);
      sreg := UpdateZns(reg[rd], sreg.(z := false, n := false, v := reg[rd] == 0x80, s := false));
    }

    ghost predicate Apart(rd: int, rr: int, n: int) {
      0 <= rd && 0 <= rr && 0 < n && rd + n <= 32 && rr + n <= 32 && (rd + n <= rr || rr + n <= rd)
    }

    // The i-th instruction of an addition of a and b: ADD, then ADC.
    method AddNext(rd: int, rr: int, i: int, ghost a: seq<Byte>, ghost b: seq<Byte>)
      requires Valid() && 0 <= i < |a| == |b| && Apart(rd, rr, |a|)
      requires reg[rd + i] == a[i] && reg[rr + i] == b[i]
      requires i > 0 ==> sreg.c == AddChain(a[..i], b[..i], false).1
      modifies this`sreg, reg
      ensures Valid()
      ensures AddChain(a[..i + 1], b[..i + 1], false) ==
        (AddChain(a[..i], b[..i], false).0 + [reg[rd + i]], sreg.c)
      ensures forall k :: 0 <= k < 32 && k != rd + i ==> reg[k] == old(reg[k])
    {
      Prefix(a, b, i);
      AddChainSnoc(a[..i], b[..i], false, a[i], b[i]);
      assert i == 0 ==> !AddChain(a[..i], b[..i], false).1;
      hide AddChain;
      if i == 0 {
        Add(rd, rr);
      } else {
        Adc(rd + i, rr + i);
      }
    }

    // ADD, ADC, ADC, ... over n registers.
    method AddWide(rd: int, rr: int, n: int)
      requires Valid() && Apart(rd, rr, n)
      modifies this`sreg, reg
      ensures Valid()
      ensures (reg[rd..rd + n], sreg.c) == AddChain(old(reg[rd..rd + n]), old(reg[rr..rr + n]), false)
      ensures forall k :: 0 <= k < 32 && !(rd <= k < rd + n) ==> reg[k] == old(reg[k])
    {
      ghost var a, b := reg[rd..rd + n], reg[rr..rr + n];
      ghost var sum := [];
      assert AddChain(a[..0], b[..0], false) == ([], false);
      hide AddChain;
      for i := 0 to n
        invariant Valid() && |sum| == i
        invariant AddChain(a[..i], b[..i], false).0 == sum
        invariant i > 0 ==> sreg.c == AddChain(a[..i], b[..i], false).1
        invariant forall k :: 0 <= k < i ==> reg[rd + k] == sum[k]
        invariant forall k :: 0 <= k < 32 && !(rd <= k < rd + i) ==> reg[k] == old(reg[k])
      {
        AddNext(rd, rr, i, a, b);
        sum := sum + [reg[rd + i]];
      }
      assert a[..n] == a && b[..n] == b;
      assert reg[rd..rd + n] == sum;
    }

    // SUB or SBC, for the first register and for any other; or CP or CPC, when
    // nothing is written back.
    method SubOrCompare(rd: int, rr: int, first: bool, writeback: bool)
      requires Valid() && 0 <= rd < 32 && 0 <= rr < 32
      modifies this`sreg, reg
      ensures Valid()
      ensures writeback ==> reg[rd] == SubResult(old(reg[rd]), old(reg[rr]), !first && old(sreg.c))
      ensures forall k :: 0 <= k < 32 && !(writeback && k == rd) ==> reg[k] == old(reg[k])
      ensures Alike(sreg, SubFlags(old(reg[rd]), old(reg[rr]), !first && old(sreg.c), !first, old(sreg.z), false))
    {
      hide SubFlags;
      if writeback {
        if first { Sub(rd, rr); } else { Sbc(rd, rr); }
      } else {
        if first { Cp(rd, rr); } else { Cpc(rd, rr); }
      }
    }

    // The i-th instruction of a subtraction or a comparison.
    method SubNext(rd: int, rr: int, i: int, writeback: bool, ghost a: seq<Byte>, ghost b: seq<Byte>, ghost f: Flags)
      requires Valid() && 0 <= i < |a| == |b| && Apart(rd, rr, |a|)
      requires reg[rd + i] == a[i] && reg[rr + i] == b[i]
      requires Alike(SubChain(a[..i], b[..i], f, false).1, sreg)
      modifies this`sreg, reg
      ensures Valid()
      ensures Alike(SubChain(a[..i + 1], b[..i + 1], f, false).1, sreg)
      ensures writeback ==>
        SubChain(a[..i + 1], b[..i + 1], f, false).0 == SubChain(a[..i], b[..i], f, false).0 + [reg[rd + i]]
      ensures forall k :: 0 <= k < 32 && !(writeback && k == rd + i) ==> reg[k] == old(reg[k])
    {
      hide SubChain, SubFlags;
      Prefix(a, b, i);
      SubChainSnoc(a[..i], b[..i], f, false, a[i], b[i]);
      ghost var g := SubChain(a[..i], b[..i], f, false).1;
      HalfCarryAside(a[i], b[i], i > 0 && g.c, i > 0, g.z, g.h, false);
      SubOrCompare(rd + i, rr + i, i == 0, writeback);
    }

    method SubWide(rd: int, rr: int, n: int)
      requires Valid() && Apart(rd, rr, n)
      modifies this`sreg, reg
      ensures Valid()
      ensures reg[rd..rd + n] == SubChain(old(reg[rd..rd + n]), old(reg[rr..rr + n]), old(sreg), false).0
      ensures Alike(SubChain(old(reg[rd..rd + n]), old(reg[rr..rr + n]), old(sreg), false).1, sreg)
      ensures forall k :: 0 <= k < 32 && !(rd <= k < rd + n) ==> reg[k] == old(reg[k])
    {
      ghost var a, b := reg[rd..rd + n], reg[rr..rr + n];
      ghost var difference := [];
      assert SubChain(a[..0], b[..0], sreg, false) == ([], sreg);
      hide SubChain;
      for i := 0 to n
        invariant Valid() && |difference| == i
        invariant SubChain(a[..i], b[..i], old(sreg), false).0 == difference
        invariant Alike(SubChain(a[..i], b[..i], old(sreg), false).1, sreg)
        invariant forall k :: 0 <= k < i ==> reg[rd + k] == difference[k]
        invariant forall k :: 0 <= k < 32 && !(rd <= k < rd + i) ==> reg[k] == old(reg[k])
      {
        SubNext(rd, rr, i, true, a, b, old(sreg));
        difference := difference + [reg[rd + i]];
      }
      assert a[..n] == a && b[..n] == b;
      assert reg[rd..rd + n] == difference;
    }

    // CP, CPC, CPC, ...: the flags say how two numbers of any length compare.
    method CompareWide(rd: int, rr: int, n: int)
      requires Valid() && Apart(rd, rr, n)
      modifies this`sreg, reg
      ensures Valid() && reg[..] == old(reg[..])
      ensures sreg.c <==> Value(reg[rd..rd + n]) < Value(reg[rr..rr + n])
      ensures sreg.z <==> reg[rd..rd + n] == reg[rr..rr + n]
      ensures sreg.s <==> SignedValue(reg[rd..rd + n]) < SignedValue(reg[rr..rr + n])
    {
      ghost var a, b := reg[rd..rd + n], reg[rr..rr + n];
      assert SubChain(a[..0], b[..0], sreg, false) == ([], sreg);
      hide SubChain, Value, SignedValue;
      for i := 0 to n
        invariant Valid()
        invariant Alike(SubChain(a[..i], b[..i], old(sreg), false).1, sreg)
        invariant forall k :: 0 <= k < 32 ==> reg[k] == old(reg[k])
      {
        SubNext(rd, rr, i, false, a, b, old(sreg));
      }
      assert a[..n] == a && b[..n] == b;
      assert reg[rd..rd + n] == a && reg[rr..rr + n] == b;
      CompareChain(a, b, old(sreg));
    }
  }

  lemma HalfCarryAside(a: Byte, b: Byte, carry: bool, keepZ: bool, z: bool, h: bool, h': bool)
    ensures Alike(SubFlags(a, b, carry, keepZ, z, h), SubFlags(a, b, carry, keepZ, z, h'))
    ensures !keepZ ==> forall z' :: Alike(SubFlags(a, b, carry, false, z, h), SubFlags(a, b, carry, false, z', h'))
  {}

  lemma Prefix(a: seq<Byte>, b: seq<Byte>, i: int)
    requires 0 <= i < |a| == |b|
    ensures a[..i + 1] == a[..i] + [a[i]] && b[..i + 1] == b[..i] + [b[i]]
  {}
}
