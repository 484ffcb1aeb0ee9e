/** Decoding numbers, and choosing the variant of a value by the type and width on the wire. */
module Values {
  import opened Bytes
  import opened Errors
  import opened IoFutures

  // --------------------------------------------------------------- numbers

  /** The number the bytes stand for: big-endian, in two's complement if signed. */
  function Value(payload: seq<byte>, signed: bool): int {
    if signed then Signed(Be(payload), |payload|) else Be(payload)
  }

  /** A buffer of `width` bytes with the payload at its end, filled up with zeroes or the sign. */
  function Extend(payload: seq<byte>, width: nat, signed: bool): (r: seq<byte>)
    requires 1 <= |payload| <= width
    ensures |r| == width
  {
    Copies(if signed && payload[0] >= 0x80 then 0xFF else 0x00, width - |payload|) + payload
  }

  lemma {:induction false} BeSnoc(bs: seq<byte>, b: byte)
    ensures Be(bs + [b]) == 256 * Be(bs) + b
  {
    assert (bs + [b])[..|bs|] == bs;
  }

  lemma {:induction false} BeCopies(n: nat)
    ensures Be(Copies<byte>(0x00, n)) == 0
    ensures Be(Copies<byte>(0xFF, n)) == Pow256(n) - 1
  {
    if n > 0 {
      hide Be;
      BeCopies(n - 1);
      BeSnoc(Copies<byte>(0x00, n - 1), 0x00);
      BeSnoc(Copies<byte>(0xFF, n - 1), 0xFF);
    }
  }

  /** The top bit of the first byte is the sign. */
  lemma {:induction false} TopBit(payload: seq<byte>)
    requires payload != []
    ensures payload[0] >= 0x80 <==> 2 * Be(payload) >= Pow256(|payload|)
  {
    hide Be, Pow256;
    var first, rest := payload[0], payload[1..];
    assert payload == [first] + rest;
    BeConcat([first], rest);
    BeOne(first);
    BeBound(rest);
    Pow256Step(|payload|);
    HighByte(first, Pow256(|rest|), Be(rest));
  }

  lemma {:induction false} Pow256Step(n: nat)
    requires n > 0
    ensures Pow256(n) == 256 * Pow256(n - 1)
  {
  }

  lemma {:induction false} HighByte(first: nat, unit: nat, rest: nat)
    requires rest < unit && first < 256
    ensures first >= 0x80 <==> 2 * (first * unit + rest) >= 256 * unit
  {
    if first >= 0x80 {
      assert first * unit >= 0x80 * unit;
    } else {
      assert first * unit <= 0x7F * unit;
    }
  }

  lemma {:induction false} Pow256Adds(a: nat, b: nat)
    ensures Pow256(a + b) == Pow256(a) * Pow256(b)
  {
    if a > 0 {
      Pow256Adds(a - 1, b);
      assert 256 * (Pow256(a - 1) * Pow256(b)) == (256 * Pow256(a - 1)) * Pow256(b);
    }
  }

  /** Widening a number, with zeroes or its sign, does not change it. */
  lemma {:induction false} ExtendKeepsValue(payload: seq<byte>, width: nat, signed: bool)
    requires 1 <= |payload| <= width
    ensures FromBytes(NumberType(width, signed, false), Extend(payload, width, signed)) == Value(payload, signed)
  {
    hide Be, Pow256, Copies;
    var n, k := |payload|, width - |payload|;
    var unit, high, v := Pow256(n), Pow256(k), Be(payload);
    BeCopies(k);
    BeBound(payload);
    TopBit(payload);
    Pow256Adds(k, n);
    BeConcat(Copies<byte>(0x00, k), payload);
    BeConcat(Copies<byte>(0xFF, k), payload);
    SignExtension(high, unit, v);
  }

  lemma {:induction false} SignExtension(high: nat, unit: nat, v: nat)
    requires high > 0 && v < unit
    ensures 0 * unit + v == v
    ensures 2 * v < unit ==> 2 * v < high * unit
    ensures 2 * v >= unit ==> 2 * ((high - 1) * unit + v) >= high * unit
    ensures (high - 1) * unit + v - high * unit == v - unit
  {
    assert (high - 1) * unit == high * unit - unit;
    assert high * unit >= unit;
  }

  // -------------------------------------------------------------- variants

  /** The variants of a value: a flag, a byte string, and numbers of a width in bytes. */
  datatype Variant = Flag | ByteList | Num(width: nat, signed: bool) | SubList

  /** The widths that the specification has number types for. */
  predicate Declared(v: Variant) {
    v.Num? ==> v.width in {1, 2, 4, 8}
  }

  /** The lengths on the wire, from the first up to but not including the second, that select a number. */
  function LenRange(width: nat): (nat, nat)
    requires width in {1, 2, 4, 8}
  {
    if width == 1 then (1, 2) else if width == 2 then (2, 3) else if width == 4 then (3, 5) else (5, 9)
  }

  /** The arm of a variant accepts an item of this type and length. */
  predicate Matches(v: Variant, ty: TlvType, len: nat)
    requires Declared(v)
  {
    match v
    case Flag => ty == Boolean
    case ByteList => ty == String
    case SubList => ty == List
    case Num(width, signed) =>
      && ty == (if signed then Integer else Unsigned)
      && LenRange(width).0 <= len < LenRange(width).1
  }

  /** The number type that `into_*_relaxed` goes through for a payload of this length. */
  function RelaxedWidth(len: nat): nat {
    if len <= 2 then len else if len <= 4 then 4 else 8
  }

  /** The variant that takes a number of this length. */
  function Choose(len: nat, signed: bool): (v: Variant)
    requires 1 <= len <= 8
    ensures Declared(v)
  {
    Num(RelaxedWidth(len), signed)
  }

  /**
   Decoding in an arm: the narrow types take exactly their width, the wide ones go through
   the narrowest type that fits.
   */
  function DecodeArm(width: nat, signed: bool, payload: seq<byte>): Result<int> {
    var len := |payload|;
    var through := if width <= 2 then width else RelaxedWidth(len);
    if 1 <= len <= width && (if through <= 2 then len == through else through / 2 < len <= through) then
      Ok(FromBytes(NumberType(through, signed, false), Extend(payload, through, signed)))
    else Err(UnsupportedLen(len))
  }

  /**
   For every number of 1 to 8 bytes exactly one arm accepts, whatever the order of the arms,
   and decoding in it gives the number that the bytes stand for.
   */
  lemma {:induction false} NumbersAreExact(payload: seq<byte>, signed: bool)
    requires 1 <= |payload| <= 8
    ensures var ty := if signed then Integer else Unsigned; var chosen := Choose(|payload|, signed);
            forall v | Declared(v) :: Matches(v, ty, |payload|) <==> v == chosen
    ensures DecodeArm(Choose(|payload|, signed).width, signed, payload) == Ok(Value(payload, signed))
  {
    hide Extend, FromBytes, Value;
    ExtendKeepsValue(payload, RelaxedWidth(|payload|), signed);
  }

  /** No other length is accepted by any number arm. */
  lemma {:induction false} NoOtherNumbers(ty: TlvType, len: nat)
    requires ty == Integer || ty == Unsigned
    ensures (exists v | Declared(v) :: Matches(v, ty, len)) <==> 1 <= len <= 8
  {
    if 1 <= len <= 8 {
      assert Matches(Choose(len, ty == Integer), ty, len);
    }
  }

  /** The values fit the type they are decoded to. */
  lemma {:induction false} ValueBound(payload: seq<byte>, signed: bool)
    requires 1 <= |payload|
    ensures !signed ==> 0 <= Value(payload, signed) < Pow256(|payload|)
    ensures signed ==> -(Pow256(|payload|) as int) <= 2 * Value(payload, signed) < Pow256(|payload|)
  {
    BeBound(payload);
  }

  /** In this range there is one number for the bytes up to multiples of the modulus. */
  lemma {:induction false} ValueExactly(payload: seq<byte>, signed: bool, v: int)
    requires 1 <= |payload|
    requires if signed then -(Pow256(|payload|) as int) <= 2 * v < Pow256(|payload|) else 0 <= v < Pow256(|payload|)
    ensures Value(payload, signed) == v <==> exists k: int :: v == Be(payload) + k * Pow256(|payload|)
  {
    hide Be, Pow256, Signed;
    BeBound(payload);
    ValueBound(payload, signed);
    var unit := Pow256(|payload|);
    if signed {
      SignedExactly(Be(payload), |payload|);
    } else {
      assert Value(payload, signed) == Be(payload) + 0 * unit;
    }
    var j: int :| Value(payload, signed) == Be(payload) + j * unit;
    if k: int :| v == Be(payload) + k * unit {
      OneMultiple(Value(payload, signed), v, k - j, unit);
    }
  }

  lemma {:induction false} SomeMultiple(k: int, unit: nat)
    requires k >= 1
    ensures k * unit >= unit && (-k) * unit <= -(unit as int)
  {
  }

  lemma {:induction false} OneMultiple(a: int, b: int, k: int, unit: nat)
    requires unit > 0 && b - a == k * unit && -(unit as int) < b - a < unit
    ensures a == b
  {
    if k >= 1 {
      SomeMultiple(k, unit);
    } else if k <= -1 {
      SomeMultiple(-k, unit);
    }
  }

  /** For example, a scaler whose bits are all set is -1. */
  lemma {:induction false} MinusOne()
    ensures Value([0xFF], true) == -1 && Value([0xFF], false) == 255
  {
    BeOne(0xFF);
    assert Pow256(1) == 256;
  }
}
