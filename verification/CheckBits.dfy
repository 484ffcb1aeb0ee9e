/** The check value bit by bit, and what it is known to be. */
module CheckBits {
  import opened Bytes
  import opened Crc

  function Bit(b: bool): (r: nat)
    ensures r < 2
  {
    if b then 1 else 0
  }

  /** Four bits, the lowest one first. */
  datatype Nib = Nib(b0: bool, b1: bool, b2: bool, b3: bool)
  {
    function Value(): (v: nat)
      ensures v < 16
    {
      Bit(b0) + 2 * Bit(b1) + 4 * Bit(b2) + 8 * Bit(b3)
    }

    function Plus(n: Nib): Nib {
      Nib(b0 != n.b0, b1 != n.b1, b2 != n.b2, b3 != n.b3)
    }

    function Not(): Nib {
      Nib(!b0, !b1, !b2, !b3)
    }

    /** The lowest bit goes out, another one comes in on top. */
    function Down(top: bool): Nib {
      Nib(b1, b2, b3, top)
    }
  }

  /** The sixteen bits of the register, in fours, the lowest ones first. */
  datatype Reg = Reg(n0: Nib, n1: Nib, n2: Nib, n3: Nib)
  {
    function Value(): (v: nat)
      ensures v < 0x1_0000
    {
      n0.Value() + 16 * n1.Value() + 0x100 * (n2.Value() + 16 * n3.Value())
    }

    function Plus(r: Reg): Reg {
      Reg(n0.Plus(r.n0), n1.Plus(r.n1), n2.Plus(r.n2), n3.Plus(r.n3))
    }

    function Down(): Reg {
      Reg(n0.Down(n1.b0), n1.Down(n2.b0), n2.Down(n3.b0), n3.Down(false))
    }

    /** One shift: if the bit that goes out was set, bits 15, 10 and 3 change. */
    function Step(): Reg {
      if n0.b0 then Down().Plus(POLYNOMIAL) else Down()
    }

    function Eight(): Reg {
      Step().Step().Step().Step().Step().Step().Step().Step()
    }

    /** A byte with these two halves comes in. */
    function Take(low: Nib, high: Nib): Reg {
      Reg(n0.Plus(low), n1.Plus(high), n2, n3)
    }
  }

  const POLYNOMIAL: Reg := Reg(Nib(false, false, false, true), Nib(false, false, false, false), Nib(false, false, true, false), Nib(false, false, false, true))

  const FRESH: Reg := Reg(Nib(true, true, true, true), Nib(true, true, true, true), Nib(true, true, true, true), Nib(true, true, true, true))

  // -------------------------------------------------- digesting bit by bit

  function Sum(a: nat, b: nat): nat {
    (a + b) % 2
  }

  lemma {:induction false} XorOfBits(a: bool, b: bool, c: bool)
    requires c == (a != b)
    ensures Bit(c) == Sum(Bit(a), Bit(b))
  {
  }

  lemma {:induction false} DigitsOf(a0: nat, a1: nat, a2: nat, a3: nat)
    requires a0 < 2 && a1 < 2 && a2 < 2 && a3 < 2
    ensures var v := a0 + 2 * a1 + 4 * a2 + 8 * a3;
            v < 16 && v % 2 == a0 && v / 2 % 2 == a1 && v / 4 % 2 == a2 && v / 8 % 2 == a3
  {
  }

  lemma {:induction false} XorOfDigits(a0: nat, a1: nat, a2: nat, a3: nat, b0: nat, b1: nat, b2: nat, b3: nat)
    requires a0 < 2 && a1 < 2 && a2 < 2 && a3 < 2 && b0 < 2 && b1 < 2 && b2 < 2 && b3 < 2
    ensures Xor(4, a0 + 2 * a1 + 4 * a2 + 8 * a3, b0 + 2 * b1 + 4 * b2 + 8 * b3)
            == Sum(a0, b0) + 2 * Sum(a1, b1) + 4 * Sum(a2, b2) + 8 * Sum(a3, b3)
  {
    hide Xor;
    var a, b := a0 + 2 * a1 + 4 * a2 + 8 * a3, b0 + 2 * b1 + 4 * b2 + 8 * b3;
    DigitsOf(a0, a1, a2, a3);
    DigitsOf(b0, b1, b2, b3);
    XorOfFour(a, b);
  }

  lemma {:induction false} ValueOf(n: Nib)
    ensures n.Value() == Bit(n.b0) + 2 * Bit(n.b1) + 4 * Bit(n.b2) + 8 * Bit(n.b3)
  {
  }

  lemma {:induction false} PlusBits(m: Nib, n: Nib, p: Nib)
    requires p == m.Plus(n)
    ensures Bit(p.b0) == Sum(Bit(m.b0), Bit(n.b0)) && Bit(p.b1) == Sum(Bit(m.b1), Bit(n.b1))
    ensures Bit(p.b2) == Sum(Bit(m.b2), Bit(n.b2)) && Bit(p.b3) == Sum(Bit(m.b3), Bit(n.b3))
  {
    hide Bit, Sum;
    XorOfBits(m.b0, n.b0, p.b0);
    XorOfBits(m.b1, n.b1, p.b1);
    XorOfBits(m.b2, n.b2, p.b2);
    XorOfBits(m.b3, n.b3, p.b3);
  }

  lemma {:induction false} XorOfNibs(m: Nib, n: Nib)
    ensures Xor(4, m.Value(), n.Value()) == m.Plus(n).Value()
  {
    hide Xor, Bit, Sum, Nib.Value, Nib.Plus;
    var p := m.Plus(n);
    ValueOf(m);
    ValueOf(n);
    ValueOf(p);
    PlusBits(m, n, p);
    XorOfDigits(Bit(m.b0), Bit(m.b1), Bit(m.b2), Bit(m.b3), Bit(n.b0), Bit(n.b1), Bit(n.b2), Bit(n.b3));
  }

  lemma {:induction false} XorOfNibbles(a0: nat, a1: nat, a2: nat, a3: nat, b0: nat, b1: nat, b2: nat, b3: nat)
    requires a0 < 16 && a1 < 16 && a2 < 16 && a3 < 16 && b0 < 16 && b1 < 16 && b2 < 16 && b3 < 16
    ensures Xor(16, a0 + 16 * a1 + 0x100 * (a2 + 16 * a3), b0 + 16 * b1 + 0x100 * (b2 + 16 * b3))
            == Xor(4, a0, b0) + 16 * Xor(4, a1, b1) + 0x100 * (Xor(4, a2, b2) + 16 * Xor(4, a3, b3))
  {
    hide Xor;
    XorNibble(12, a0 + 16 * a1 + 0x100 * (a2 + 16 * a3), b0 + 16 * b1 + 0x100 * (b2 + 16 * b3));
    XorNibble(8, a1 + 16 * a2 + 0x100 * a3, b1 + 16 * b2 + 0x100 * b3);
    XorNibble(4, a2 + 16 * a3, b2 + 16 * b3);
  }

  lemma {:induction false} PlusIs(a: Reg, b: Reg)
    ensures Xor(16, a.Value(), b.Value()) == a.Plus(b).Value()
  {
    hide Xor, Nib.Value, Nib.Plus;
    XorOfNibbles(a.n0.Value(), a.n1.Value(), a.n2.Value(), a.n3.Value(), b.n0.Value(), b.n1.Value(), b.n2.Value(), b.n3.Value());
    XorOfNibs(a.n0, b.n0);
    XorOfNibs(a.n1, b.n1);
    XorOfNibs(a.n2, b.n2);
    XorOfNibs(a.n3, b.n3);
  }

  lemma {:induction false} NibDown(n: Nib, top: bool)
    ensures n.Value() + 16 * Bit(top) == Bit(n.b0) + 2 * n.Down(top).Value()
  {
  }

  lemma {:induction false} DownIs(r: Reg)
    ensures r.Value() == Bit(r.n0.b0) + 2 * r.Down().Value()
  {
    hide Nib.Value, Nib.Down, Bit;
    NibDown(r.n0, r.n1.b0);
    NibDown(r.n1, r.n2.b0);
    NibDown(r.n2, r.n3.b0);
    NibDown(r.n3, false);
    NoBit();
  }

  lemma {:induction false} NoBit()
    ensures Bit(false) == 0
  {
  }

  lemma {:induction false} PolynomialIs()
    ensures POLYNOMIAL.Value() == 0x8408
  {
  }

  lemma {:induction false} StepIs(r: Reg, n: nat)
    requires n > 0
    ensures Shift(r.Value(), n) == Shift(r.Step().Value(), n - 1)
  {
    hide Xor, Reg.Value, Reg.Down, Reg.Plus;
    DownIs(r);
    PolynomialIs();
    PlusIs(r.Down(), POLYNOMIAL);
  }

  lemma {:induction false} EightIs(r: Reg)
    ensures Shift(r.Value(), 8) == r.Eight().Value()
  {
    hide Shift, Reg.Value, Reg.Step;
    StepIs(r, 8);
    StepIs(r.Step(), 7);
    StepIs(r.Step().Step(), 6);
    StepIs(r.Step().Step().Step(), 5);
    StepIs(r.Step().Step().Step().Step(), 4);
    StepIs(r.Step().Step().Step().Step().Step(), 3);
    StepIs(r.Step().Step().Step().Step().Step().Step(), 2);
    StepIs(r.Step().Step().Step().Step().Step().Step().Step(), 1);
    NotShifted(r.Eight().Value());
  }

  lemma {:induction false} NotShifted(reg: nat)
    ensures Shift(reg, 0) == reg
  {
  }

  lemma {:induction false} PlusNone(n: Nib)
    ensures n.Plus(Nib(false, false, false, false)) == n && Nib(false, false, false, false).Value() == 0
  {
  }

  lemma {:induction false} TakeIs(r: Reg, low: Nib, high: Nib)
    ensures Xor(16, r.Value(), low.Value() + 16 * high.Value()) == r.Take(low, high).Value()
  {
    hide Xor, Nib.Value, Nib.Plus;
    var zero := Nib(false, false, false, false);
    PlusNone(r.n2);
    PlusNone(r.n3);
    PlusIs(r, Reg(low, high, zero, zero));
  }

  /** One more byte, given with its bits. */
  lemma {:induction false} Next(bs: seq<byte>, r: Reg, low: Nib, high: Nib, b: byte) returns (next: Reg)
    requires Update(INIT, bs) == r.Value() && b == low.Value() + 16 * high.Value()
    ensures next == r.Take(low, high).Eight() && Update(INIT, bs + [b]) == next.Value()
  {
    hide Shift, Xor, Reg.Value, Reg.Step, Reg.Take, Nib.Value;
    TakeIs(r, low, high);
    EightIs(r.Take(low, high));
    next := r.Take(low, high).Eight();
    assert (bs + [b])[..|bs|] == bs;
  }

  /** Two bytes, whose bits `a` holds. */
  lemma {:induction false} NextTwo(bs: seq<byte>, r: Reg, a: Reg, b: byte, c: byte) returns (next: Reg)
    requires Update(INIT, bs) == r.Value()
    requires b == a.n0.Value() + 16 * a.n1.Value() && c == a.n2.Value() + 16 * a.n3.Value()
    ensures next == r.Take(a.n0, a.n1).Eight().Take(a.n2, a.n3).Eight() && Update(INIT, bs + [b, c]) == next.Value()
  {
    hide Update, Reg.Value, Reg.Take, Reg.Eight, Nib.Value;
    var middle := Next(bs, r, a.n0, a.n1, b);
    next := Next(bs + [b], middle, a.n2, a.n3, c);
    assert bs + [b] + [c] == bs + [b, c];
  }

  lemma {:induction false} Begin() returns (r: Reg)
    ensures r == FRESH && Update(INIT, []) == r.Value()
  {
    r := FRESH;
  }

  // ------------------------------------------------------------ known values

  /** A single zero. */
  lemma {:induction false} CheckValueOfZero()
    ensures Crc16([0x00]) == 0xF078
  {
    hide Update, Finalize;
    var r := Begin();
    r := Next([], r, Nib(false, false, false, false), Nib(false, false, false, false), 0x00);
    assert [0x00] == [] + [0x00];
    assert r == Reg(Nib(true, true, true, false), Nib(false, false, false, true), Nib(true, true, true, true), Nib(false, false, false, false));
    FinalizeIs(0x0F87);
  }

  // ------------------------------------------------------------ the residue

  lemma {:induction false} SomeNib(v: nat) returns (n: Nib)
    requires v < 16
    ensures n.Value() == v
  {
    n := Nib(v % 2 == 1, v / 2 % 2 == 1, v / 4 % 2 == 1, v / 8 == 1);
  }

  lemma {:induction false} Digits(v: nat)
    ensures v == v % 16 + 16 * (v / 16 % 16) + 0x100 * (v / 0x100 % 16 + 16 * (v / 0x1000))
  {
    assert v / 16 / 16 == v / 0x100 && v / 0x100 / 16 == v / 0x1000;
  }

  lemma {:induction false} SomeReg(v: nat) returns (r: Reg)
    requires v < 0x1_0000
    ensures r.Value() == v
  {
    hide Nib.Value;
    var n0 := SomeNib(v % 16);
    var n1 := SomeNib(v / 16 % 16);
    var n2 := SomeNib(v / 0x100 % 16);
    var n3 := SomeNib(v / 0x1000);
    r := Reg(n0, n1, n2, n3);
    Digits(v);
  }

  lemma {:induction false} NotIs(n: Nib)
    ensures n.Not().Value() == 15 - n.Value()
  {
  }

  /** Whatever has been digested, the check value sent behind it leads to the same register. */
  lemma {:induction false} Residue(bs: seq<byte>)
    ensures Crc16(bs) < 0x1_0000
    ensures Update(INIT, bs + [Crc16(bs) % 256, Crc16(bs) / 256]) == 0xF0B8
  {
    hide Update, Xor, Shift, Finalize, Reg.Eight, Reg.Take, Nib.Value, Nib.Not;
    UpdateInjective(INIT, INIT, bs);
    var r := SomeReg(Update(INIT, bs));
    FinalizeIs(r.Value());
    NotIs(r.n0);
    NotIs(r.n1);
    NotIs(r.n2);
    NotIs(r.n3);
    var first, second := Crc16(bs) % 256, Crc16(bs) / 256;
    assert first == r.n0.Not().Value() + 16 * r.n1.Not().Value() && second == r.n2.Not().Value() + 16 * r.n3.Not().Value();
    hide Reg.Value;
    var next := Next(bs, r, r.n0.Not(), r.n1.Not(), first);
    var last := Next(bs + [first], next, r.n2.Not(), r.n3.Not(), second);
    assert bs + [first] + [second] == bs + [first, second];
    ResidueBits(r);
  }

  /** The eight steps after the complement of the lower half has come in: only ones go out. */
  lemma {:induction false} AllOnesOut(low: Nib, high: Nib)
    ensures Reg(Nib(true, true, true, true), Nib(true, true, true, true), low, high).Eight()
            == Reg(Nib(low.b0, low.b1, low.b2, !low.b3), Nib(!high.b0, !high.b1, !high.b2, high.b3), Nib(true, true, true, true), Nib(false, false, false, false))
  {
    FourOut(low, high);
    FourMoreOut(low, high);
    hide Reg.Step;
  }

  lemma {:induction false} FourOut(low: Nib, high: Nib)
    ensures Reg(Nib(true, true, true, true), Nib(true, true, true, true), low, high).Step().Step().Step().Step()
            == Reg(Nib(false, false, false, false), Nib(low.b0, low.b1, low.b2, !low.b3), Nib(!high.b0, !high.b1, !high.b2, high.b3), Nib(true, true, true, true))
  {
  }

  lemma {:induction false} FourMoreOut(low: Nib, high: Nib)
    ensures Reg(Nib(false, false, false, false), Nib(low.b0, low.b1, low.b2, !low.b3), Nib(!high.b0, !high.b1, !high.b2, high.b3), Nib(true, true, true, true)).Step().Step().Step().Step()
            == Reg(Nib(low.b0, low.b1, low.b2, !low.b3), Nib(!high.b0, !high.b1, !high.b2, high.b3), Nib(true, true, true, true), Nib(false, false, false, false))
  {
  }

  lemma {:induction false} ResidueBits(r: Reg)
    ensures r.Take(r.n0.Not(), r.n1.Not()).Eight().Take(r.n2.Not(), r.n3.Not()).Eight().Value() == 0xF0B8
  {
    hide Reg.Value, Reg.Eight;
    var x := r.Take(r.n0.Not(), r.n1.Not());
    assert x == Reg(Nib(true, true, true, true), Nib(true, true, true, true), r.n2, r.n3);
    AllOnesOut(r.n2, r.n3);
    var y := x.Eight().Take(r.n2.Not(), r.n3.Not());
    assert y == Reg(Nib(true, true, true, false), Nib(false, false, false, true), Nib(true, true, true, true), Nib(false, false, false, false));
    ResidueOut();
    ResidueValue();
  }

  lemma {:induction false} ResidueOut()
    ensures Reg(Nib(true, true, true, false), Nib(false, false, false, true), Nib(true, true, true, true), Nib(false, false, false, false)).Eight() == Reg(Nib(false, false, false, true), Nib(true, true, false, true), Nib(false, false, false, false), Nib(true, true, true, true))
  {
  }

  lemma {:induction false} ResidueValue()
    ensures Reg(Nib(false, false, false, true), Nib(true, true, false, true), Nib(false, false, false, false), Nib(true, true, true, true)).Value() == 0xF0B8
  {
  }

  /** The digits from 1 to 9: the check value by which this frame check sequence is known. */
  lemma {:induction false} KnownCheckValue()
    ensures Crc16([0x31, 0x32, 0x33, 0x34, 0x35, 0x36, 0x37, 0x38, 0x39]) == 0x906E
  {
    hide Update, Finalize, Reg.Value;
    var bs: seq<byte> := [];
    var r := Begin();
    r := Next(bs, r, Nib(true, false, false, false), Nib(true, true, false, false), 0x31);
    bs := bs + [0x31];
    assert r == Reg(Nib(true, false, true, true), Nib(false, false, false, true), Nib(true, true, true, true), Nib(false, true, false, false));
    r := Next(bs, r, Nib(false, true, false, false), Nib(true, true, false, false), 0x32);
    bs := bs + [0x32];
    assert r == Reg(Nib(true, true, false, false), Nib(true, false, true, false), Nib(true, false, true, true), Nib(false, false, true, false));
    r := Next(bs, r, Nib(true, true, false, false), Nib(true, true, false, false), 0x33);
    bs := bs + [0x33];
    assert r == Reg(Nib(true, true, false, true), Nib(false, false, true, false), Nib(true, true, false, false), Nib(false, true, true, false));
    r := Next(bs, r, Nib(false, false, true, false), Nib(true, true, false, false), 0x34);
    bs := bs + [0x34];
    assert r == Reg(Nib(true, true, false, false), Nib(true, false, false, false), Nib(true, true, false, true), Nib(false, false, false, true));
    r := Next(bs, r, Nib(true, false, true, false), Nib(true, true, false, false), 0x35);
    bs := bs + [0x35];
    assert r == Reg(Nib(true, true, true, true), Nib(true, true, false, true), Nib(false, false, true, false), Nib(false, false, true, false));
    r := Next(bs, r, Nib(false, true, true, false), Nib(true, true, false, false), 0x36);
    bs := bs + [0x36];
    assert r == Reg(Nib(true, false, true, true), Nib(false, false, false, true), Nib(true, false, false, true), Nib(true, false, false, false));
    r := Next(bs, r, Nib(true, true, true, false), Nib(true, true, false, false), 0x37);
    bs := bs + [0x37];
    assert r == Reg(Nib(false, false, false, true), Nib(false, false, true, true), Nib(false, true, false, true), Nib(true, false, false, false));
    r := Next(bs, r, Nib(false, false, false, true), Nib(true, true, false, false), 0x38);
    bs := bs + [0x38];
    assert r == Reg(Nib(true, false, true, false), Nib(true, false, false, true), Nib(true, true, true, false), Nib(true, true, true, true));
    r := Next(bs, r, Nib(true, false, false, true), Nib(true, true, false, false), 0x39);
    bs := bs + [0x39];
    assert r == Reg(Nib(true, false, false, false), Nib(true, false, false, true), Nib(true, true, true, true), Nib(false, true, true, false));
    KnownRegister();
    FinalizeIs(0x6F91);
    assert bs == [0x31, 0x32, 0x33, 0x34, 0x35, 0x36, 0x37, 0x38, 0x39];
  }

  lemma {:induction false} KnownRegister()
    ensures Reg(Nib(true, false, false, false), Nib(true, false, false, true), Nib(true, true, true, true), Nib(false, true, true, false)).Value() == 0x6F91
  {
  }
}
