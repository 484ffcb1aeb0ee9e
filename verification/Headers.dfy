/** Writing type-length headers, and which of them are read back as they were meant. */
module Headers {
  import opened Bytes
  import opened Errors
  import opened Deframing
  import opened Tlv

  function Pow16(n: nat): (r: nat)
    ensures r > 0
  {
    if n == 0 then 1 else 16 * Pow16(n - 1)
  }

  /** The bits that stand for a type. */
  function Code(ty: TlvType): nat {
    match ty
    case String => 0
    case Boolean => 4
    case Integer => 5
    case Unsigned => 6
    case List => 7
    case Other(raw) => raw
  }

  /** The types three bits can name. */
  predicate Nameable(ty: TlvType) {
    ty.Other? ==> ty.raw in {1, 2, 3}
  }

  /** The last `n` nibbles of a header, carrying `v`. */
  function Tail(v: nat, n: nat): (r: seq<byte>)
    requires v < Pow16(n)
    ensures |r| == n
    decreases n, v
  {
    if n == 0 then []
    else
      var unit := Pow16(n - 1);
      FirstNibble(v, unit);
      [(if n > 1 then 0x80 else 0) + v / unit] + Tail(v % unit, n - 1)
  }

  lemma {:induction false} FirstNibble(v: nat, unit: nat)
    requires 0 < unit && v < 16 * unit
    ensures 0 <= v / unit < 16 && 0 <= v % unit < unit && v == v / unit * unit + v % unit
  {
  }

  /** A header of `n` bytes with the type in the first one. */
  function HeaderBytes(ty: TlvType, v: nat, n: nat): (r: seq<byte>)
    requires Nameable(ty) && n > 0 && v < Pow16(n)
    ensures |r| == n
  {
    var unit := Pow16(n - 1);
    FirstNibble(v, unit);
    [(if n > 1 then 0x80 else 0) + 16 * Code(ty) + v / unit] + Tail(v % unit, n - 1)
  }

  /** Reading the nibbles puts the value together again, up to multiples of the word. */
  lemma {:induction false} TailReadBack(data: seq<byte>, p: nat, ty: TlvType, acc: nat, headerLen: nat, last: byte, v: nat, n: nat)
    requires v < Pow16(n) && At(data, p, Tail(v, n))
    requires HasMore(last) <==> n > 0
    ensures HeaderFrom(data, p, ty, acc % WORD, headerLen, last)
            == Finish(p + n, ty, (acc * Pow16(n) + v) % WORD, headerLen + n, if n == 0 then TypeOf(last) else String)
    decreases n
  {
    hide Finish;
    if n > 0 {
      hide HeaderFrom;
      var unit := Pow16(n - 1);
      FirstNibble(v, unit);
      var nibble, rest := v / unit, v % unit;
      var b := Tail(v, n)[0];
      SplitTail(data, p, v, n);
      Horner(acc, nibble, rest, v, unit);
      NibbleByte(nibble, n > 1);
      HeaderStep(data, p, ty, acc, headerLen, last);
      TailReadBack(data, p + 1, ty, acc * 16 + nibble, headerLen + 1, b, rest, n - 1);
    }
  }

  lemma {:induction false} SplitTail(data: seq<byte>, p: nat, v: nat, n: nat)
    requires n > 0 && v < Pow16(n) && At(data, p, Tail(v, n))
    ensures data[p] == Tail(v, n)[0]
    ensures At(data, p + 1, Tail(v % Pow16(n - 1), n - 1))
  {
    FirstNibble(v, Pow16(n - 1));
    assert data[p] == data[p..p + n][0];
    assert data[p + 1..p + 1 + (n - 1)] == data[p..p + n][1..];
  }

  lemma {:induction false} HeaderStep(data: seq<byte>, p: nat, ty: TlvType, acc: nat, headerLen: nat, last: byte)
    requires p < |data| && HasMore(last) && RawType(data[p]) == 0
    ensures HeaderFrom(data, p, ty, acc % WORD, headerLen, last)
            == HeaderFrom(data, p + 1, ty, (acc * 16 + Nibble(data[p])) % WORD, headerLen + 1, data[p])
  {
    WrapStep(acc, Nibble(data[p]));
  }

  /** Shifting loses the high bits, and adding a nibble then never overflows. */
  lemma {:induction false} WrapStep(acc: nat, nibble: nat)
    requires nibble < 16
    ensures acc % WORD * 16 % WORD + nibble == (acc * 16 + nibble) % WORD
  {
    Shifted(acc % WORD);
    var q, r := acc / WORD, acc % WORD;
    var k, m := r * 16 / WORD, r * 16 % WORD;
    assert acc * 16 + nibble == (16 * q + k) * WORD + (m + nibble);
  }

  lemma {:induction false} Horner(acc: nat, nibble: nat, rest: nat, v: nat, unit: nat)
    requires v == nibble * unit + rest
    ensures (acc * 16 + nibble) * unit + rest == acc * (16 * unit) + v
  {
  }

  lemma {:induction false} NibbleByte(nibble: nat, more: bool)
    requires nibble < 16
    ensures var b: byte := (if more then 0x80 else 0) + nibble;
            HasMore(b) == more && RawType(b) == 0 && Nibble(b) == nibble
  {
  }

  lemma {:induction false} FirstByte(ty: TlvType, nibble: nat, more: bool)
    requires Nameable(ty) && nibble < 16
    ensures Code(ty) < 8
    ensures var b: byte := (if more then 0x80 else 0) + 16 * Code(ty) + nibble;
            HasMore(b) == more && TypeOf(b) == ty && Nibble(b) == nibble
  {
  }

  /** What reading a header of `n` bytes gives, whatever type and value it carries. */
  lemma {:induction false} ReadHeaderBytes(data: seq<byte>, p: nat, ty: TlvType, v: nat, n: nat)
    requires Nameable(ty) && n > 0 && v < Pow16(n)
    requires At(data, p, HeaderBytes(ty, v, n))
    ensures HeaderAt(data, p) == Finish(p + n, ty, v % WORD, n, if n == 1 then ty else String)
  {
    hide Finish, HeaderFrom, HeaderBytes, Tail, TypeOf, Nibble, HasMore, Code;
    var unit := Pow16(n - 1);
    FirstNibble(v, unit);
    var nibble, rest := v / unit, v % unit;
    FirstByte(ty, nibble, n > 1);
    SplitHeader(data, p, ty, v, n);
    hide Pow16;
    TailReadBack(data, p + 1, ty, nibble, 1, data[p], rest, n - 1);
    assert nibble % WORD == nibble;
  }

  lemma {:induction false} SplitHeader(data: seq<byte>, p: nat, ty: TlvType, v: nat, n: nat)
    requires Nameable(ty) && n > 0 && v < Pow16(n) && At(data, p, HeaderBytes(ty, v, n))
    ensures p < |data| && 0 <= v / Pow16(n - 1) < 16 && 0 <= v % Pow16(n - 1) < Pow16(n - 1)
    ensures data[p] == (if n > 1 then 0x80 else 0) + 16 * Code(ty) + v / Pow16(n - 1)
    ensures At(data, p + 1, Tail(v % Pow16(n - 1), n - 1))
  {
    var unit := Pow16(n - 1);
    FirstNibble(v, unit);
    hide Pow16, Tail;
    var first, rest := HeaderBytes(ty, v, n)[0], Tail(v % unit, n - 1);
    AtParts(data, p, [first], rest);
    assert HeaderBytes(ty, v, n) == [first] + rest;
    assert data[p] == data[p..p + 1][0];
  }

  /** The least number of header bytes, from `n` on, that can carry a length which includes them. */
  function FittingBytes(len: nat, n: nat): (k: nat)
    requires n > 0
    ensures k >= n && len + k < Pow16(k)
    ensures forall j :: n <= j < k ==> len + j >= Pow16(j)
    decreases len + 1 - n
  {
    Pow16Big(n);
    if len + n < Pow16(n) then n else FittingBytes(len, n + 1)
  }

  lemma {:induction false} Pow16Big(n: nat)
    requires n > 0
    ensures Pow16(n) >= 16 * n
  {
    if n > 1 {
      Pow16Big(n - 1);
    }
  }

  /** The least number of header bytes, from `n` on, that can carry a number of list elements. */
  function FittingElements(count: nat, n: nat): (k: nat)
    requires n > 0
    ensures k >= n && count < Pow16(k)
    ensures forall j :: n <= j < k ==> count >= Pow16(j)
    decreases count + 1 - n
  {
    Pow16Big(n);
    if count < Pow16(n) then n else FittingElements(count, n + 1)
  }

  /** The shortest header; the length counts the header itself, except for lists. */
  function Encode(ty: TlvType, len: nat): seq<byte>
    requires Nameable(ty)
  {
    if ty == List then HeaderBytes(ty, len, FittingElements(len, 1))
    else var n := FittingBytes(len, 1); HeaderBytes(ty, len + n, n)
  }

  /** How a header of `n` bytes is understood in which the number `v` was written. */
  function Understood(p: nat, ty: TlvType, v: nat, n: nat): Header {
    var wrapped := v % WORD;
    if ty == List && n == 1 then Header(List, v, p + n)
    else if wrapped == 0 && (n > 1 || ty == String) then Bad(EndOfSmlMessage, p + n)
    else if wrapped == 0 || wrapped < n then Bad(ShortTlvLength(wrapped), p + n)
    else Header(ty, wrapped - n, p + n)
  }

  /**
   The number in a header counts up to multiples of the word only, whatever was written: a
   header is accepted exactly if that is a list's one byte, or if what is left of the number
   is at least the length of the header.
   */
  lemma {:induction false} HeaderUnderstood(data: seq<byte>, p: nat, ty: TlvType, v: nat, n: nat)
    requires Nameable(ty) && n > 0 && v < Pow16(n) && At(data, p, HeaderBytes(ty, v, n))
    ensures HeaderAt(data, p) == Understood(p, ty, v, n)
    ensures HeaderAt(data, p).Header? <==> (ty == List && n == 1) || v % WORD >= n
  {
    hide HeaderAt;
    ReadHeaderBytes(data, p, ty, v, n);
    assert Pow16(1) == 16;
  }

  /**
   Headers of strings and numbers are read back as written if and only if the total length
   fits the word.
   */
  lemma {:induction false} PrimitiveRoundTrip(data: seq<byte>, p: nat, ty: TlvType, len: nat)
    requires Nameable(ty) && ty != List
    requires At(data, p, Encode(ty, len))
    ensures HeaderAt(data, p) == Header(ty, len, p + |Encode(ty, len)|) <==> len + |Encode(ty, len)| < WORD
    ensures HeaderAt(data, p) == Understood(p, ty, len + |Encode(ty, len)|, |Encode(ty, len)|)
  {
    hide HeaderAt, HeaderBytes, Pow16, Understood;
    var n := FittingBytes(len, 1);
    HeaderUnderstood(data, p, ty, len + n, n);
    UnderstoodAsMeant(p, ty, len, n);
  }

  lemma {:induction false} UnderstoodAsMeant(p: nat, ty: TlvType, len: nat, n: nat)
    requires ty != List && n > 0
    ensures Understood(p, ty, len + n, n) == Header(ty, len, p + n) <==> len + n < WORD
  {
  }

  /**
   Headers of lists are read back as written if and only if the list has at most 15 elements:
   of a longer header the reader takes its own length off the number of elements.
   */
  lemma {:induction false} ListRoundTrip(data: seq<byte>, p: nat, count: nat)
    requires At(data, p, Encode(List, count))
    ensures HeaderAt(data, p) == Header(List, count, p + |Encode(List, count)|) <==> count <= 15
    ensures HeaderAt(data, p) == Understood(p, List, count, |Encode(List, count)|)
    ensures |Encode(List, count)| == 1 <==> count <= 15
  {
    hide HeaderAt;
    var n := FittingElements(count, 1);
    HeaderUnderstood(data, p, List, count, n);
    assert Pow16(1) == 16;
  }

  /** The header is not over where the data ends, and no later byte of it is of a reserved type. */
  predicate Whole(h: Header) {
    !h.RanOut? && !(h.Bad? && h.error.MultibyteTlvReservedType?)
  }

  lemma {:induction false} TailCons(b: byte, rest: nat, m: nat)
    requires RawType(b) == 0 && (HasMore(b) <==> m > 0) && rest < Pow16(m)
    ensures var v := Nibble(b) * Pow16(m) + rest; v < Pow16(m + 1) && Tail(v, m + 1) == [b] + Tail(rest, m)
  {
    ByteParts(b);
    LeadingNibble(Nibble(b), rest, Pow16(m));
    hide Nibble, HasMore, RawType, TypeOf, Code;
  }

  lemma {:induction false} TailWritten(data: seq<byte>, p: nat, ty: TlvType, len: nat, headerLen: nat, last: byte) returns (v: nat, n: nat)
    requires p <= |data| && Whole(HeaderFrom(data, p, ty, len, headerLen, last))
    ensures v < Pow16(n) && At(data, p, Tail(v, n)) && (HasMore(last) <==> n > 0)
    ensures HeaderFrom(data, p, ty, len, headerLen, last).Header? ==> HeaderFrom(data, p, ty, len, headerLen, last).next == p + n
    decreases |data| - p
  {
    if HasMore(last) {
      var b := data[p];
      Shifted(len);
      var rest, m := TailWritten(data, p + 1, ty, len * 16 % WORD + Nibble(b), headerLen + 1, b);
      hide HeaderFrom, TypeOf, Whole, Tail;
      v, n := Nibble(b) * Pow16(m) + rest, m + 1;
      TailCons(b, rest, m);
      assert [b] == data[p..p + 1];
      AtParts(data, p, [b], Tail(rest, m));
    } else {
      v, n := 0, 0;
      assert data[p..p] == [];
    }
  }

  lemma {:induction false} ByteParts(b: byte)
    ensures b == (if HasMore(b) then 0x80 else 0) + 16 * RawType(b) + Nibble(b) && Nibble(b) < 16
    ensures Nameable(TypeOf(b)) && Code(TypeOf(b)) == RawType(b)
  {
    var high := b / 16;
    assert b == 16 * high + b % 16;
  }

  lemma {:induction false} Below(nibble: nat, unit: nat)
    requires nibble < 16
    ensures nibble * unit + unit <= 16 * unit
  {
    assert 16 * unit == nibble * unit + unit + (15 - nibble) * unit;
  }

  lemma {:induction false} LeadingNibble(nibble: nat, rest: nat, unit: nat)
    requires nibble < 16 && rest < unit
    ensures var v := nibble * unit + rest; v < 16 * unit && v / unit == nibble && v % unit == rest
  {
    var v := nibble * unit + rest;
    Below(nibble, unit);
    FirstNibble(v, unit);
    var q, r := v / unit, v % unit;
    SameNibble(nibble, q, rest, r, unit);
  }

  lemma {:induction false} SameNibble(a: nat, b: nat, r: nat, s: nat, unit: nat)
    requires r < unit && s < unit && a * unit + r == b * unit + s
    ensures a == b && r == s
  {
    if a > b {
      Further(a - b, unit);
    } else if b > a {
      Further(b - a, unit);
    }
  }

  lemma {:induction false} Further(k: nat, unit: nat)
    requires k > 0
    ensures k * unit >= unit
  {
  }

  /**
   The converse: whatever bytes are read, if the header does not run out of data or into a
   reserved type, they are a header with some number written in it, and understood as that.
   */
  lemma {:induction false} HeaderWritten(data: seq<byte>, p: nat) returns (v: nat, n: nat)
    requires Whole(HeaderAt(data, p))
    ensures p < |data| && n > 0 && v < Pow16(n)
    ensures At(data, p, HeaderBytes(TypeOf(data[p]), v, n)) && HeaderAt(data, p) == Understood(p, TypeOf(data[p]), v, n)
  {
    var b := data[p];
    var rest, m := TailWritten(data, p + 1, TypeOf(b), Nibble(b), 1, b);
    hide HeaderFrom, Tail;
    ByteParts(b);
    v, n := Nibble(b) * Pow16(m) + rest, m + 1;
    LeadingNibble(Nibble(b), rest, Pow16(m));
    assert HeaderBytes(TypeOf(b), v, n) == [b] + Tail(rest, m);
    assert [b] == data[p..p + 1];
    AtParts(data, p, [b], Tail(rest, m));
    hide HeaderBytes, Pow16, HeaderAt;
    HeaderUnderstood(data, p, TypeOf(b), v, n);
  }

  /** The bytes from `p` up to `q` are the header's so far: each has another one after it, and the later ones are of type 0. */
  predicate Continues(data: seq<byte>, p: nat, q: nat) {
    p < q <= |data| && forall i :: p <= i < q ==> HasMore(data[i]) && (i > p ==> RawType(data[i]) == 0)
  }

  /** A reserved type is reported exactly for the first later byte of the header that has one. */
  lemma {:induction false} ReservedLater(data: seq<byte>, p: nat, raw: nat, next: nat)
    ensures HeaderAt(data, p) == Bad(MultibyteTlvReservedType(raw), next)
            <==> p + 1 < next <= |data| && Continues(data, p, next - 1) && RawType(data[next - 1]) == raw != 0
  {
    if p < |data| {
      if HasMore(data[p]) {
        assert Continues(data, p, p + 1);
      }
      ReservedFrom(data, p, p + 1, TypeOf(data[p]), Nibble(data[p]), 1, raw, next);
    }
  }

  lemma {:induction false} ReservedFrom(data: seq<byte>, p: nat, q: nat, ty: TlvType, len: nat, headerLen: nat, raw: nat, next: nat)
    requires p < q <= |data| && (q == p + 1 || (Continues(data, p, q - 1) && RawType(data[q - 1]) == 0))
    ensures HeaderFrom(data, q, ty, len, headerLen, data[q - 1]) == Bad(MultibyteTlvReservedType(raw), next)
            <==> q < next <= |data| && Continues(data, p, next - 1) && RawType(data[next - 1]) == raw != 0
    decreases |data| - q
  {
    hide TypeOf;
    Shifted(len);
    if HasMore(data[q - 1]) {
      assert Continues(data, p, q);
    }
    if q < next <= |data| && Continues(data, p, next - 1) {
      assert HasMore(data[q - 1]) && (q < next - 1 ==> RawType(data[q]) == 0);
    }
    if HasMore(data[q - 1]) && q < |data| && RawType(data[q]) == 0 {
      ReservedFrom(data, p, q + 1, ty, len * 16 % WORD + Nibble(data[q]), headerLen + 1, raw, next);
    }
  }

  /** For example, these nine bytes announce a string of 2^32 + 1 bytes, and one byte is read. */
  lemma {:induction false} WrappedLength(data: seq<byte>)
    requires data == [0x81, 0x80, 0x80, 0x80, 0x80, 0x80, 0x80, 0x80, 0x0A]
    ensures data == HeaderBytes(String, WORD + 10, 9)
    ensures HeaderAt(data, 0) == Header(String, 1, 9)
  {
    WrittenExample();
    assert data[0..9] == data;
    HeaderUnderstood(data, 0, String, WORD + 10, 9);
  }

  lemma {:induction false} WrittenExample()
    ensures Pow16(9) == 16 * WORD
    ensures HeaderBytes(String, WORD + 10, 9) == [0x81, 0x80, 0x80, 0x80, 0x80, 0x80, 0x80, 0x80, 0x0A]
  {
    assert Pow16(4) == 0x1_0000;
    assert Pow16(8) == WORD;
    TailOfTen(8);
  }

  /** Small numbers are written in the last byte, after zeroes. */
  lemma {:induction false} TailOfTen(n: nat)
    requires 1 <= n <= 8
    ensures Pow16(n) > 10
    ensures Tail(10, n) == [0x80, 0x80, 0x80, 0x80, 0x80, 0x80, 0x80][..n - 1] + [0x0A]
  {
    Pow16Big(n);
    if n > 1 {
      Pow16Big(n - 1);
      TailOfTen(n - 1);
      var unit := Pow16(n - 1);
      TenOver(unit);
      assert Tail(10, n) == [0x80] + Tail(10, n - 1);
      hide Tail, Pow16;
      var zeroes: seq<byte> := [0x80, 0x80, 0x80, 0x80, 0x80, 0x80, 0x80];
      assert zeroes[..n - 1] == [0x80] + zeroes[..n - 2];
    } else {
      assert Tail(0, 0) == [];
    }
  }

  lemma {:induction false} TenOver(unit: nat)
    requires unit > 10
    ensures 10 / unit == 0 && 10 % unit == 10
  {
  }

  /** The check against too long lengths never fires: shifting drops the high bits instead. */
  lemma {:induction false} NeverTooBig(data: seq<byte>, p: nat, ty: TlvType, len: nat, headerLen: nat, last: byte)
    requires p <= |data|
    ensures var h := HeaderFrom(data, p, ty, len, headerLen, last); !(h.Bad? && h.error == TlvLengthTooBig)
    decreases |data| - p
  {
    if HasMore(last) && p < |data| {
      var longer := len * 16 % WORD + Nibble(data[p]);
      Shifted(len);
      NeverTooBig(data, p + 1, ty, longer, headerLen + 1, data[p]);
    }
  }

  lemma {:induction false} Shifted(len: nat)
    ensures len * 16 % WORD <= WORD - 16
  {
    var m := len * 16 % WORD;
    var q := len * 16 / WORD;
    assert m == 16 * (len - q * (WORD / 16));
  }
}
