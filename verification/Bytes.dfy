/** Bytes and the plain values that byte strings stand for. */
module Bytes {

  type byte = x: int | 0 <= x < 256

  function Copies<T>(v: T, n: nat): (r: seq<T>)
    ensures |r| == n && forall i :: 0 <= i < n ==> r[i] == v
  {
    if n == 0 then [] else Copies(v, n - 1) + [v]
  }

  /** The unsigned big-endian value of a byte string. */
  function Be(bs: seq<byte>): nat {
    if bs == [] then 0 else 256 * Be(bs[..|bs| - 1]) + bs[|bs| - 1]
  }

  /** The unsigned little-endian value of a byte string. */
  function Le(bs: seq<byte>): nat {
    if bs == [] then 0 else bs[0] + 256 * Le(bs[1..])
  }

  /** `u16::swap_bytes` */
  function SwapBytes(v: nat): nat
    requires v < 0x1_0000
  {
    256 * (v % 256) + v / 256
  }

  lemma {:induction false} BeOne(b: byte)
    ensures Be([b]) == b
  {
    assert [b][..0] == [];
  }

  /** Reading two bytes big-endian and swapping them is reading them little-endian. */
  lemma {:induction false} SwappedBe(bs: seq<byte>)
    requires |bs| == 2
    ensures Be(bs) == 256 * (bs[0] as int) + bs[1] < 0x1_0000
    ensures SwapBytes(Be(bs)) == Le(bs) == bs[0] as int + 256 * (bs[1] as int)
  {
    assert bs[..1] == [bs[0]] && bs[1..] == [bs[1]];
    assert Be([bs[0]]) == bs[0] by { assert [bs[0]][..0] == []; }
    assert Le([bs[1]]) == bs[1] by { assert [bs[1]][1..] == []; }
    assert (256 * (bs[0] as int) + bs[1]) % 256 == bs[1];
  }

  function Pow256(n: nat): (r: nat)
    ensures r > 0
  {
    if n == 0 then 1 else 256 * Pow256(n - 1)
  }

  lemma {:induction false} BeBound(bs: seq<byte>)
    ensures Be(bs) < Pow256(|bs|)
  {
    if bs != [] {
      BeBound(bs[..|bs| - 1]);
    }
  }

  lemma {:induction false} LeOne(b: byte)
    ensures Le([b]) == b
  {
    assert [b][1..] == [];
  }

  /** Little-endian values are positional as well: the right part weighs `256^|a|`. */
  lemma {:induction false} LeConcat(a: seq<byte>, b: seq<byte>)
    ensures Le(a + b) == Le(a) + Pow256(|a|) * Le(b)
    decreases |a|
  {
    if a == [] {
      assert a + b == b;
    } else {
      LeConcat(a[1..], b);
      assert (a + b)[1..] == a[1..] + b;
      Associate(Pow256(|a| - 1), Le(b));
    }
  }

  lemma {:induction false} Associate(unit: nat, v: nat)
    ensures 256 * unit * v == 256 * (unit * v)
  {
  }

  function Reversed(bs: seq<byte>): (r: seq<byte>)
    ensures |r| == |bs| && forall i :: 0 <= i < |bs| ==> r[i] == bs[|bs| - 1 - i]
  {
    if bs == [] then [] else Reversed(bs[1..]) + [bs[0]]
  }

  /** The little-endian value is the big-endian one of the bytes in reverse. */
  lemma {:induction false} LeIsReversedBe(bs: seq<byte>)
    ensures Le(bs) == Be(Reversed(bs))
    decreases |bs|
  {
    if bs != [] {
      LeIsReversedBe(bs[1..]);
      assert Reversed(bs)[..|bs| - 1] == Reversed(bs[1..]);
    }
  }

  /** Four bytes, each in its place. */
  lemma {:induction false} FourBytes(a: byte, b: byte, c: byte, d: byte)
    ensures Le([a, b, c, d]) == a as nat + 0x100 * (b as nat) + 0x1_0000 * (c as nat) + 0x100_0000 * (d as nat)
    ensures Be([a, b, c, d]) == d as nat + 0x100 * (c as nat) + 0x1_0000 * (b as nat) + 0x100_0000 * (a as nat)
  {
    BeOne(a);
    LeOne(d);
    assert [a, b, c, d][1..] == [b, c, d] && [b, c, d][1..] == [c, d] && [c, d][1..] == [d];
    assert Le([b, c, d]) == b + 256 * Le([c, d]);
    assert [a, b, c, d][..3] == [a, b, c] && [a, b, c][..2] == [a, b] && [a, b][..1] == [a];
    assert Be([a, b, c]) == 256 * Be([a, b]) + c;
  }

  /** Big-endian values are positional: the left part weighs `256^|b|`. */
  lemma {:induction false} BeConcat(a: seq<byte>, b: seq<byte>)
    ensures Be(a + b) == Be(a) * Pow256(|b|) + Be(b)
  {
    if b == [] {
      assert a + b == a;
    } else {
      var front := b[..|b| - 1];
      BeConcat(a, front);
      assert (a + b)[..|a + b| - 1] == a + front;
      Distribute(Be(a), Pow256(|front|), Be(front), b[|b| - 1]);
    }
  }

  lemma {:induction false} Distribute(a: nat, unit: nat, front: nat, last: nat)
    ensures 256 * (a * unit + front) + last == a * (256 * unit) + (256 * front + last)
  {
  }
}
