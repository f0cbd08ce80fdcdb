/**
 * The CRC-16 engine shared by the reader (XMLReader_v5.cpp:46-52) and the
 * writer (XMLWriter_v5.cpp:247-255).
 *
 * The C code updates the register a byte at a time with a table-free
 * shift-and-xor formula.  This module states that formula as written and
 * proves it equal to two textbook definitions of the MSB-first CRC-16 with
 * the generator polynomial 0x1021 (the CCITT polynomial of ITU-T V.41): the
 * bit-serial register (xor the byte into the high half, then eight
 * shift-and-conditional-xor steps) and the table-driven byte step.  It then
 * folds the step over byte sequences.  Both sides of the link seed the
 * register with the polynomial constant itself, 0x1021.
 */
module Crc16 {
  import opened Ascii

  /** `crc_poly` (XMLReader_v5.h:152) and `reset_crc` (XMLWriter_v5.cpp:32). */
  const CRC_POLY: bv16 := 0x1021

  /** One byte step of the register, as the C code computes it. */
  function Update(reg: bv16, b: byte): bv16
  {
    UpdateBits(reg, b as bv8)
  }

  function UpdateBits(reg: bv16, b: bv8): bv16
  {
    var msb := (reg >> 8) as bv8;
    var lsb := (reg & 0xFF) as bv8;
    var c0 := (b ^ msb) as bv16;
    var c := c0 ^ (c0 >> 4);
    var msb' := ((lsb as bv16) ^ (c >> 3) ^ (c << 4)) & 0xFF;
    var lsb' := (c ^ (c << 5)) & 0xFF;
    (msb' << 8) + lsb'
  }

  // ---------------------------------------------------------------------
  // Textbook definitions
  // ---------------------------------------------------------------------

  /** One bit of the MSB-first register: shift left, xor the polynomial 0x1021 if a one fell out. */
  function ShiftXor(r: bv16): bv16
  {
    if r & 0x8000 != 0 then (r << 1) ^ 0x1021 else r << 1
  }

  function EightShifts(x: bv16): bv16
  {
    ShiftXor(ShiftXor(ShiftXor(ShiftXor(ShiftXor(ShiftXor(ShiftXor(ShiftXor(x))))))))
  }

  /** The bit-serial byte update: xor the byte into the high half, then eight bit steps. */
  function BitwiseUpdate(reg: bv16, b: byte): bv16
  {
    EightShifts(reg ^ ((b as bv8 as bv16) << 8))
  }

  /**
   * The table-driven byte step on `x`, the register with the byte already
   * xored into its high half: shift a byte out and xor the table entry of the
   * byte shifted out, `c * (x^12 + x^5 + 1)` with `c = t ^ (t >> 4)`.
   */
  function TableStep(x: bv16): bv16
  {
    var t := x >> 8;
    var c := t ^ (t >> 4);
    (x << 8) ^ (c << 12) ^ (c << 5) ^ c
  }

  /** The table-driven byte update. */
  function TableUpdate(reg: bv16, b: byte): bv16
  {
    TableStep(reg ^ ((b as bv8 as bv16) << 8))
  }

  // ---------------------------------------------------------------------
  // The three definitions agree
  // ---------------------------------------------------------------------

  /** One bit step with the conditional xor written as a mask: all ones exactly when the top bit is set. */
  predicate MaskedStep(r: bv16, r': bv16)
  {
    r' == (r << 1) ^ ((0 - (r >> 15)) & 0x1021)
  }

  lemma ShiftXorMasked(r: bv16)
    ensures MaskedStep(r, ShiftXor(r))
  {
    if r & 0x8000 != 0 {
      assert r >> 15 == 1;
    } else {
      assert r >> 15 == 0;
    }
  }

  /** `y` is `x` after `k` bit steps, for k <= 4: the top `k` bits times the polynomial, carry-free. */
  predicate AfterSteps(x: bv16, k: nat, y: bv16)
    requires 1 <= k <= 4
  {
    if k == 1 then var n := x >> 15; y == (x << 1) ^ (n << 12) ^ (n << 5) ^ n
    else if k == 2 then var n := x >> 14; y == (x << 2) ^ (n << 12) ^ (n << 5) ^ n
    else if k == 3 then var n := x >> 13; y == (x << 3) ^ (n << 12) ^ (n << 5) ^ n
    else var n := x >> 12; y == (x << 4) ^ (n << 12) ^ (n << 5) ^ n
  }

  lemma FirstStep(x: bv16, y: bv16)
    requires MaskedStep(x, y)
    ensures AfterSteps(x, 1, y)
  {
  }

  lemma SecondStep(x: bv16, y: bv16, z: bv16)
    requires AfterSteps(x, 1, y) && MaskedStep(y, z)
    ensures AfterSteps(x, 2, z)
  {
  }

  lemma ThirdStep(x: bv16, y: bv16, z: bv16)
    requires AfterSteps(x, 2, y) && MaskedStep(y, z)
    ensures AfterSteps(x, 3, z)
  {
  }

  lemma FourthStep(x: bv16, y: bv16, z: bv16)
    requires AfterSteps(x, 3, y) && MaskedStep(y, z)
    ensures AfterSteps(x, 4, z)
  {
  }

  lemma FourShifts(x: bv16, y1: bv16, y2: bv16, y3: bv16, y4: bv16)
    requires y1 == ShiftXor(x) && y2 == ShiftXor(y1) && y3 == ShiftXor(y2) && y4 == ShiftXor(y3)
    ensures AfterSteps(x, 4, y4)
  {
    ShiftXorMasked(x);
    ShiftXorMasked(y1);
    ShiftXorMasked(y2);
    ShiftXorMasked(y3);
    FirstStep(x, y1);
    SecondStep(x, y1, y2);
    ThirdStep(x, y2, y3);
    FourthStep(x, y3, y4);
  }

  /** Two nibble steps make one table step. */
  lemma TwoNibbles(x: bv16, y: bv16, z: bv16, w: bv16)
    requires AfterSteps(x, 4, y) && AfterSteps(y, 4, z) && w == TableStep(x)
    ensures z == w
  {
  }

  lemma EightShiftsIsTableStep(x: bv16)
    ensures EightShifts(x) == TableStep(x)
  {
    var y1 := ShiftXor(x);
    var y2 := ShiftXor(y1);
    var y3 := ShiftXor(y2);
    var y4 := ShiftXor(y3);
    var y5 := ShiftXor(y4);
    var y6 := ShiftXor(y5);
    var y7 := ShiftXor(y6);
    var y8 := ShiftXor(y7);
    FourShifts(x, y1, y2, y3, y4);
    FourShifts(y4, y5, y6, y7, y8);
    TwoNibbles(x, y4, y8, TableStep(x));
  }

  /** The two bytes the C code computes separately, put back together. */
  lemma Recombine(lsb: bv16, c: bv16)
    requires lsb < 256 && c < 256
    ensures (((lsb ^ (c >> 3) ^ (c << 4)) & 0xFF) << 8) + ((c ^ (c << 5)) & 0xFF) == (lsb << 8) ^ (c << 12) ^ (c << 5) ^ c
  {
  }

  lemma RegisterHalves(reg: bv16, b: bv8)
    ensures (reg ^ ((b as bv16) << 8)) >> 8 == (b ^ ((reg >> 8) as bv8)) as bv16
    ensures (reg ^ ((b as bv16) << 8)) << 8 == (((reg & 0xFF) as bv8) as bv16) << 8
  {
  }

  lemma UpdateBitsIsTableStep(reg: bv16, b: bv8)
    ensures UpdateBits(reg, b) == TableStep(reg ^ ((b as bv16) << 8))
  {
    var c0 := (b ^ ((reg >> 8) as bv8)) as bv16;
    RegisterHalves(reg, b);
    Recombine(((reg & 0xFF) as bv8) as bv16, c0 ^ (c0 >> 4));
  }

  /** The C code's byte step is the table-driven CRC-16/0x1021 update. */
  lemma UpdateIsTable(reg: bv16, b: byte)
    ensures Update(reg, b) == TableUpdate(reg, b)
  {
    UpdateBitsIsTableStep(reg, b as bv8);
  }

  /** The bit-serial and the table-driven CRC-16/0x1021 updates agree. */
  lemma BitwiseIsTable(reg: bv16, b: byte)
    ensures BitwiseUpdate(reg, b) == TableUpdate(reg, b)
  {
    EightShiftsIsTableStep(reg ^ ((b as bv8 as bv16) << 8));
  }

  /** The C code's byte step is the bit-serial CRC-16/0x1021 update. */
  lemma UpdateIsBitwise(reg: bv16, b: byte)
    ensures Update(reg, b) == BitwiseUpdate(reg, b)
  {
    UpdateIsTable(reg, b);
    BitwiseIsTable(reg, b);
  }

  // ---------------------------------------------------------------------
  // The step loses no information
  // ---------------------------------------------------------------------

  /** The bit step undone: the polynomial's x^0 term tells whether a one fell out. */
  function UnshiftXor(r: bv16): bv16
  {
    if r & 1 != 0 then ((r ^ 0x1021) >> 1) | 0x8000 else r >> 1
  }

  lemma UnshiftShiftHigh(r: bv16)
    requires r & 0x8000 != 0
    ensures UnshiftXor(ShiftXor(r)) == r
  {
  }

  lemma UnshiftShiftLow(r: bv16)
    requires r & 0x8000 == 0
    ensures UnshiftXor(ShiftXor(r)) == r
  {
  }

  lemma UnshiftShift(r: bv16)
    ensures UnshiftXor(ShiftXor(r)) == r
  {
    if r & 0x8000 != 0 {
      UnshiftShiftHigh(r);
    } else {
      UnshiftShiftLow(r);
    }
  }

  lemma ShiftXorInjective(r1: bv16, r2: bv16)
    requires r1 != r2
    ensures ShiftXor(r1) != ShiftXor(r2)
  {
    UnshiftShift(r1);
    UnshiftShift(r2);
  }

  lemma EightShiftsInjective(x1: bv16, x2: bv16)
    requires x1 != x2
    ensures EightShifts(x1) != EightShifts(x2)
  {
    var a1, a2 := ShiftXor(x1), ShiftXor(x2);
    ShiftXorInjective(x1, x2);
    var b1, b2 := ShiftXor(a1), ShiftXor(a2);
    ShiftXorInjective(a1, a2);
    var c1, c2 := ShiftXor(b1), ShiftXor(b2);
    ShiftXorInjective(b1, b2);
    var d1, d2 := ShiftXor(c1), ShiftXor(c2);
    ShiftXorInjective(c1, c2);
    var e1, e2 := ShiftXor(d1), ShiftXor(d2);
    ShiftXorInjective(d1, d2);
    var f1, f2 := ShiftXor(e1), ShiftXor(e2);
    ShiftXorInjective(e1, e2);
    var g1, g2 := ShiftXor(f1), ShiftXor(f2);
    ShiftXorInjective(f1, f2);
    ShiftXorInjective(g1, g2);
  }

  /** For a fixed byte, different registers stay different. */
  lemma UpdateInjective(r1: bv16, r2: bv16, b: byte)
    requires r1 != r2
    ensures Update(r1, b) != Update(r2, b)
  {
    UpdateIsBitwise(r1, b);
    UpdateIsBitwise(r2, b);
    EightShiftsInjective(r1 ^ ((b as bv8 as bv16) << 8), r2 ^ ((b as bv8 as bv16) << 8));
  }

  // ---------------------------------------------------------------------
  // The CRC of a byte sequence
  // ---------------------------------------------------------------------

  /** The register after folding every byte of `s`, first byte first, into `reg`. */
  function Fold(reg: bv16, s: seq<byte>): bv16
  {
    if s == [] then reg else Update(Fold(reg, s[..|s| - 1]), s[|s| - 1])
  }

  lemma FoldSnoc(reg: bv16, s: seq<byte>, b: byte)
    ensures Fold(reg, s + [b]) == Update(Fold(reg, s), b)
  {
    assert (s + [b])[..|s|] == s;
  }

  /** Folding is incremental: the register after `s + t` continues from the register after `s`. */
  lemma {:induction false} FoldAppend(reg: bv16, s: seq<byte>, t: seq<byte>)
    ensures Fold(reg, s + t) == Fold(Fold(reg, s), t)
  {
    if t == [] {
      assert s + t == s;
    } else {
      var t' := t[..|t| - 1];
      assert (s + t)[..|s + t| - 1] == s + t';
      FoldAppend(reg, s, t');
    }
  }

  /** Two different seeds never give the same CRC over the same bytes. */
  lemma {:induction false} FoldInjective(r1: bv16, r2: bv16, s: seq<byte>)
    requires r1 != r2
    ensures Fold(r1, s) != Fold(r2, s)
  {
    if s != [] {
      FoldInjective(r1, r2, s[..|s| - 1]);
      UpdateInjective(Fold(r1, s[..|s| - 1]), Fold(r2, s[..|s| - 1]), s[|s| - 1]);
    }
  }
}
