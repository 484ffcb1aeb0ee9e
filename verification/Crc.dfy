/**
 The 16-bit frame check sequence of RFC 1662, Appendix C.2: reflected polynomial
 0x1021, initial value 0xFFFF, final complement.
 */
module Crc {
  import opened Bytes

  const INIT: nat := 0xFFFF

  /** Bitwise exclusive or of the low `bits` bits. */
  function Xor(bits: nat, a: nat, b: nat): nat {
    if bits == 0 then 0 else (a % 2 + b % 2) % 2 + 2 * Xor(bits - 1, a / 2, b / 2)
  }

  /** `n` shifts of the register, with the polynomial 0x8408 (0x1021 reflected). */
  function Shift(reg: nat, n: nat): nat
    decreases n, reg
  {
    if n == 0 then reg
    else Shift(if reg % 2 == 1 then Xor(16, reg / 2, 0x8408) else reg / 2, n - 1)
  }

  /** The register after digesting `bs`, byte after byte. */
  function Update(reg: nat, bs: seq<byte>): nat {
    if bs == [] then reg
    else Shift(Xor(16, Update(reg, bs[..|bs| - 1]), bs[|bs| - 1]), 8)
  }

  function Finalize(reg: nat): nat {
    Xor(16, reg, 0xFFFF)
  }

  /** The check value of a whole byte string. */
  function Crc16(bs: seq<byte>): nat {
    Finalize(Update(INIT, bs))
  }

  function Pow2(n: nat): (r: nat)
    ensures r > 0
  {
    if n == 0 then 1 else 2 * Pow2(n - 1)
  }

  lemma {:induction false} XorFits(bits: nat, a: nat, b: nat)
    ensures Xor(bits, a, b) < Pow2(bits)
  {
    if bits > 0 {
      XorFits(bits - 1, a / 2, b / 2);
    }
  }

  /** Every check value fits the two bytes it is sent in. */
  lemma {:induction false} FinalizeFits(reg: nat)
    ensures Finalize(reg) < 0x1_0000
  {
    hide Xor;
    WordSize();
    XorFits(16, reg, 0xFFFF);
  }

  /** Digesting in two steps is digesting the concatenation. */
  lemma {:induction false} UpdateConcat(reg: nat, a: seq<byte>, b: seq<byte>)
    ensures Update(reg, a + b) == Update(Update(reg, a), b)
  {
    if b == [] {
      assert a + b == a;
    } else {
      UpdateConcat(reg, a, b[..|b| - 1]);
      assert (a + b)[..|a + b| - 1] == a + b[..|b| - 1];
    }
  }

  // ------------------------------------------------------ digesting is injective

  lemma {:induction false} WordSize()
    ensures Pow2(15) == 0x8000 && Pow2(16) == 0x1_0000
  {
    assert Pow2(8) == 256;
  }

  lemma {:induction false} XorSplit(bits: nat, a: nat, b: nat)
    requires bits > 0
    ensures Xor(bits, a, b) % 2 == (a % 2 + b % 2) % 2
    ensures Xor(bits, a, b) / 2 == Xor(bits - 1, a / 2, b / 2)
  {
  }

  lemma {:induction false} BitUndo(a: nat, b: nat)
    requires a < 2 && b < 2
    ensures ((a + b) % 2 + b) % 2 == a
  {
  }

  lemma {:induction false} XorUndo(bits: nat, a: nat, b: nat)
    requires a < Pow2(bits)
    ensures Xor(bits, Xor(bits, a, b), b) == a
  {
    if bits > 0 {
      hide Xor;
      var x := Xor(bits, a, b);
      XorUndo(bits - 1, a / 2, b / 2);
      XorSplit(bits, a, b);
      XorSplit(bits, x, b);
      BitUndo(a % 2, b % 2);
      hide Pow2;
      assert Xor(bits, x, b) == 2 * (a / 2) + a % 2;
    }
  }

  /** The polynomial's top bit tells that a bit was shifted out. */
  lemma {:induction false} XorTop(bits: nat, a: nat, b: nat)
    requires bits > 0 && a < Pow2(bits - 1) <= b < Pow2(bits)
    ensures Xor(bits, a, b) >= Pow2(bits - 1)
  {
    if bits > 1 {
      XorTop(bits - 1, a / 2, b / 2);
    }
  }

  /** One shift loses nothing. */
  lemma {:induction false} ShiftOnce(reg: nat)
    requires reg < 0x1_0000
    ensures var x := Xor(16, reg / 2, 0x8408);
            && 0x8000 <= x < 0x1_0000
            && Xor(16, x, 0x8408) == reg / 2
  {
    hide Xor;
    WordSize();
    hide Pow2;
    XorTop(16, reg / 2, 0x8408);
    XorFits(16, reg / 2, 0x8408);
    XorUndo(16, reg / 2, 0x8408);
  }

  lemma {:induction false} ShiftInjective(a: nat, b: nat, n: nat)
    requires a < 0x1_0000 && b < 0x1_0000
    ensures Shift(a, n) < 0x1_0000
    ensures Shift(a, n) == Shift(b, n) ==> a == b
    decreases n
  {
    if n > 0 {
      hide Xor;
      ShiftOnce(a);
      ShiftOnce(b);
      ShiftInjective(if a % 2 == 1 then Xor(16, a / 2, 0x8408) else a / 2,
        if b % 2 == 1 then Xor(16, b / 2, 0x8408) else b / 2, n - 1);
    }
  }

  /** Different registers stay different, whatever is digested. */
  lemma {:induction false} UpdateInjective(a: nat, b: nat, bs: seq<byte>)
    requires a < 0x1_0000 && b < 0x1_0000
    ensures Update(a, bs) < 0x1_0000
    ensures Update(a, bs) == Update(b, bs) <==> a == b
    decreases |bs|
  {
    if bs != [] {
      hide Xor, Shift;
      var front, last := bs[..|bs| - 1], bs[|bs| - 1];
      UpdateInjective(a, b, front);
      var x, y := Update(a, front), Update(b, front);
      UpdateInjective(b, a, front);
      XorInvertible(x, last);
      XorInvertible(y, last);
      ShiftInjective(Xor(16, x, last), Xor(16, y, last), 8);
    }
  }

  lemma {:induction false} XorInvertible(a: nat, b: nat)
    requires a < 0x1_0000
    ensures Xor(16, a, b) < 0x1_0000 && Xor(16, Xor(16, a, b), b) == a
  {
    hide Xor;
    WordSize();
    hide Pow2;
    XorFits(16, a, b);
    XorUndo(16, a, b);
  }

  /** Bytes put in front leave a check value unchanged if and only if they leave the register at its start. */
  lemma {:induction false} SameWithFront(front: seq<byte>, bs: seq<byte>)
    ensures Crc16(front + bs) == Crc16(bs) <==> Update(INIT, front) == INIT
  {
    hide Xor, Update;
    UpdateConcat(INIT, front, bs);
    UpdateInjective(INIT, INIT, front);
    var other := Update(INIT, front);
    UpdateInjective(INIT, other, bs);
    UpdateInjective(other, INIT, bs);
    XorInvertible(Update(INIT, bs), 0xFFFF);
    XorInvertible(Update(other, bs), 0xFFFF);
  }

  // ------------------------------------------------------------------ parity

  /** Whether the number of one bits is odd. */
  predicate Odd(v: nat) {
    v != 0 && (v % 2 == 1) != Odd(v / 2)
  }

  predicate OddOnes(bs: seq<byte>) {
    bs != [] && OddOnes(bs[..|bs| - 1]) != Odd(bs[|bs| - 1])
  }

  lemma {:induction false} OddOfXor(bits: nat, a: nat, b: nat)
    requires a < Pow2(bits) && b < Pow2(bits)
    ensures Odd(Xor(bits, a, b)) <==> Odd(a) != Odd(b)
  {
    if bits > 0 {
      OddOfXor(bits - 1, a / 2, b / 2);
      XorSplit(bits, a, b);
      hide Xor, Pow2;
      OddSplit(a);
      OddSplit(b);
      OddSplit(Xor(bits, a, b));
    }
  }

  lemma {:induction false} OddSplit(v: nat)
    ensures Odd(v) <==> (v % 2 == 1) != Odd(v / 2)
  {
  }

  /** The polynomial has three one bits, and takes the place of one. */
  lemma {:induction false} PolynomialIsOdd()
    ensures Odd(0x8408)
  {
    assert Odd(0x8);
    assert !Odd(0x42) by { assert Odd(0x10); }
    assert Odd(0x1081) by { assert !Odd(0x84); assert !Odd(0x210); }
    assert Odd(0x4204);
  }

  lemma {:induction false} OddOfShift(reg: nat, n: nat)
    requires reg < 0x1_0000
    ensures Odd(Shift(reg, n)) <==> Odd(reg)
    decreases n
  {
    if n > 0 {
      hide Xor, Odd;
      ShiftOnce(reg);
      OddSplit(reg);
      PolynomialKeepsOdd(reg / 2);
      OddOfShift(if reg % 2 == 1 then Xor(16, reg / 2, 0x8408) else reg / 2, n - 1);
    }
  }

  lemma {:induction false} PolynomialKeepsOdd(v: nat)
    requires v < 0x8000
    ensures Odd(Xor(16, v, 0x8408)) <==> !Odd(v)
  {
    hide Xor, Odd;
    WordSize();
    OddOfXor(16, v, 0x8408);
    PolynomialIsOdd();
  }

  /** The register keeps count of the one bits digested. */
  lemma {:induction false} OddOfUpdate(reg: nat, bs: seq<byte>)
    requires reg < 0x1_0000
    ensures Odd(Update(reg, bs)) <==> Odd(reg) != OddOnes(bs)
    decreases |bs|
  {
    if bs != [] {
      hide Xor, Shift, Odd;
      var front, last := bs[..|bs| - 1], bs[|bs| - 1];
      OddOfUpdate(reg, front);
      UpdateInjective(reg, reg, front);
      WordSize();
      hide Pow2;
      OddOfXor(16, Update(reg, front), last);
      XorInvertible(Update(reg, front), last);
      OddOfShift(Xor(16, Update(reg, front), last), 8);
    }
  }

  /** An odd number of one bits in front is always noticed. */
  lemma {:induction false} OddFrontShows(front: seq<byte>, bs: seq<byte>)
    requires OddOnes(front)
    ensures Crc16(front + bs) != Crc16(bs)
  {
    hide Xor, Update, Crc16, Odd;
    SameWithFront(front, bs);
    OddOfUpdate(INIT, front);
  }

  // ------------------------------------------------------ the bits in numbers

  lemma {:induction false} XorNone(bits: nat, a: nat)
    requires a < Pow2(bits)
    ensures Xor(bits, a, 0) == a
  {
    if bits > 0 {
      XorNone(bits - 1, a / 2);
    }
  }

  /** The complement. */
  lemma {:induction false} XorOnes(bits: nat, a: nat)
    requires a < Pow2(bits)
    ensures Xor(bits, a, Pow2(bits) - 1) == Pow2(bits) - 1 - a
  {
    if bits > 0 {
      XorOnes(bits - 1, a / 2);
      assert (Pow2(bits) - 1) / 2 == Pow2(bits - 1) - 1;
    }
  }

  lemma {:induction false} FinalizeIs(reg: nat)
    requires reg < 0x1_0000
    ensures Finalize(reg) == 0xFFFF - reg
  {
    hide Xor;
    WordSize();
    XorOnes(16, reg);
  }

  /** Four bits at a time. */
  lemma {:induction false} XorNibble(bits: nat, a: nat, b: nat)
    ensures Xor(bits + 4, a, b) == 16 * Xor(bits, a / 16, b / 16) + Xor(4, a % 16, b % 16)
  {
    hide Xor;
    XorSplit(bits + 4, a, b);
    XorSplit(bits + 3, a / 2, b / 2);
    XorSplit(bits + 2, a / 4, b / 4);
    XorSplit(bits + 1, a / 8, b / 8);
    FourBits(a);
    FourBits(b);
    XorOfFour(a % 16, b % 16);
  }

  lemma {:induction false} FourBits(a: nat)
    ensures a / 2 / 2 == a / 4 && a / 4 / 2 == a / 8 && a / 8 / 2 == a / 16
    ensures a % 16 % 2 == a % 2 && a % 16 / 2 % 2 == a / 2 % 2 && a % 16 / 4 % 2 == a / 4 % 2 && a % 16 / 8 % 2 == a / 8 % 2
  {
  }

  lemma {:induction false} XorOfFour(a: nat, b: nat)
    requires a < 16 && b < 16
    ensures Xor(4, a, b) == (a % 2 + b % 2) % 2 + 2 * ((a / 2 % 2 + b / 2 % 2) % 2)
                            + 4 * ((a / 4 % 2 + b / 4 % 2) % 2) + 8 * ((a / 8 % 2 + b / 8 % 2) % 2)
  {
    hide Xor;
    XorSplit(4, a, b);
    XorSplit(3, a / 2, b / 2);
    XorSplit(2, a / 4, b / 4);
    XorSplit(1, a / 8, b / 8);
    FourBits(a);
    FourBits(b);
    assert Xor(0, a / 8 / 2, b / 8 / 2) == 0 by { XorZeroBits(a / 8 / 2, b / 8 / 2); }
  }

  lemma {:induction false} XorZeroBits(a: nat, b: nat)
    ensures Xor(0, a, b) == 0
  {
  }

  /** Of nothing at all the check value is 0. */
  lemma {:induction false} NothingChecked()
    ensures Crc16([]) == 0
  {
    hide Xor;
    FinalizeIs(INIT);
  }
}
