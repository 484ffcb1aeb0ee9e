/** Futures that read a number of fixed width, resumable at any byte. */
module IoFutures {
  import opened Bytes
  import opened Errors
  import opened Io

  /** The number types: a width in bytes, signed or not, little- or big-endian. */
  datatype NumberType = NumberType(width: nat, signed: bool, little: bool)

  /** The value of `bs` as a two's complement number. */
  function Signed(v: nat, width: nat): int {
    if 2 * v >= Pow256(width) then v - Pow256(width) else v
  }

  function FromBytes(ty: NumberType, bs: seq<byte>): int {
    var v := if ty.little then Le(bs) else Be(bs);
    if ty.signed then Signed(v, ty.width) else v
  }

  /**
   Two's complement: the number differs from the unsigned one by a multiple of the modulus, and
   lies in the range of its width. There is only one such number.
   */
  lemma {:induction false} SignedExactly(v: nat, width: nat)
    requires v < Pow256(width)
    ensures exists k: int :: Signed(v, width) == v + k * Pow256(width)
    ensures -(Pow256(width) as int) <= 2 * Signed(v, width) < Pow256(width)
  {
    if 2 * v >= Pow256(width) {
      assert Signed(v, width) == v + (-1) * Pow256(width);
    } else {
      assert Signed(v, width) == v + 0 * Pow256(width);
    }
  }

  /** A little-endian number is the big-endian one of the bytes in reverse, signed or not. */
  lemma {:induction false} OrdersMirrored(width: nat, signed: bool, bs: seq<byte>)
    ensures FromBytes(NumberType(width, signed, true), bs) == FromBytes(NumberType(width, signed, false), Reversed(bs))
  {
    hide Signed, Be, Le;
    LeIsReversedBe(bs);
  }

  /** Examples: all of eight bits set is -1, in either order the sign is in the most significant byte. */
  lemma {:induction false} KnownNumbers()
    ensures FromBytes(NumberType(1, true, false), [0xFF]) == -1
    ensures FromBytes(NumberType(2, true, true), [0x00, 0x80]) == -0x8000
    ensures FromBytes(NumberType(2, true, false), [0x00, 0x80]) == 0x80
    ensures FromBytes(NumberType(4, false, false), [0xAA, 0xBB, 0xCC, 0xDD]) == 0xAABBCCDD
    ensures FromBytes(NumberType(4, false, true), [0xAA, 0xBB, 0xCC, 0xDD]) == 0xDDCCBBAA
  {
    hide Be, Le;
    assert Pow256(1) == 0x100 && Pow256(2) == 0x1_0000;
    BeOne(0xFF);
    SwappedBe([0x00, 0x80]);
    FourBytes(0xAA, 0xBB, 0xCC, 0xDD);
  }

  datatype Outcome = Waiting | Number(value: int) | Error(error: IoError)

  /** A number being read; `from` is the position of its first byte in the stream. */
  class ReadNumber {
    const src: Source
    const ty: NumberType
    const buf: array<byte>
    var read: nat
    ghost const from: nat

    constructor (src: Source, ty: NumberType)
      requires src.Valid()
      ensures Valid() && this.src == src && this.ty == ty && from == src.pos
      ensures fresh(this) && fresh(buf)
    {
      this.src := src;
      this.ty := ty;
      buf := new byte[ty.width](_ => 0);
      read, from := 0, src.pos;
    }

    /** Exactly the bytes taken from the source so far are in place. */
    ghost predicate Valid()
      reads this, src, buf
    {
      && src.Valid()
      && buf.Length == ty.width
      && read <= ty.width
      && src.pos == from + read
      && buf[..read] == src.stream[from..src.pos]
    }

    /** One poll of the source for the bytes that are missing. */
    method Fill() returns (p: Poll)
      requires Valid() && read < ty.width
      modifies this, src, buf
      ensures Valid() && |src.schedule| <= old(|src.schedule|) && Leads(|src.stream|, old(src.Now()), src.Now())
      ensures match p
              case Pending => read == old(read) && src.faults == old(src.faults) && |src.schedule| < old(|src.schedule|)
              case Ready(n) =>
                && n > 0 && read == old(read) + n
                && src.faults == old(src.faults) && |src.schedule| < old(|src.schedule|)
              case Failed(e) => read == old(read) && src.faults == old(src.faults) + 1 && Blames(old(src.schedule), src.Now(), e)
    {
      hide Leads;
      ghost var sofar, pos := buf[..read], src.pos;
      p := src.PollRead(buf, read, ty.width);
      assert buf[..read] == sofar;
      if p.Ready? {
        Joined(buf[..], read, p.count, sofar, src.stream, from, pos);
        read := read + p.count;
      }
    }

    static lemma {:induction false} Joined(bs: seq<byte>, read: nat, n: nat, before: seq<byte>, stream: seq<byte>, from: nat, pos: nat)
      requires read + n <= |bs| && |before| == read && from <= pos && pos + n <= |stream|
      requires forall i :: 0 <= i < read ==> bs[i] == before[i]
      requires before == stream[from..pos] && bs[read..read + n] == stream[pos..pos + n]
      ensures bs[..read + n] == stream[from..pos + n]
    {
      assert bs[..read] == before;
      assert bs[..read + n] == bs[..read] + bs[read..read + n];
      assert stream[from..pos + n] == stream[from..pos] + stream[pos..pos + n];
    }

    /** One poll: goes on where the last one stopped. */
    method Poll() returns (r: Outcome)
      requires Valid()
      modifies this, src, buf
      ensures Valid() && src.pos >= old(src.pos)
      ensures |src.schedule| <= old(|src.schedule|) && Leads(|src.stream|, old(src.Now()), src.Now())
      ensures match r
              case Waiting =>
                read < ty.width && src.faults == old(src.faults) && |src.schedule| < old(|src.schedule|)
              case Number(v) =>
                && src.faults == old(src.faults)
                && src.pos == from + ty.width
                && (old(read) < ty.width ==> |src.schedule| < old(|src.schedule|))
                && v == FromBytes(ty, src.stream[from..from + ty.width])
              case Error(e) => read < ty.width && src.faults == old(src.faults) + 1 && Blames(old(src.schedule), src.Now(), e)
    {
      hide Leads, FromBytes, Blames;
      LeadsNowhere(|src.stream|, src.Now());
      while read < ty.width
        invariant Leads(|src.stream|, old(src.Now()), src.Now())
        invariant Valid() && src.pos >= old(src.pos)
        invariant src.faults == old(src.faults)
        invariant |src.schedule| <= old(|src.schedule|)
        invariant read > old(read) ==> |src.schedule| < old(|src.schedule|)
        decreases ty.width - read
      {
        ghost var now := src.Now();
        var p := Fill();
        LeadsOn(|src.stream|, old(src.Now()), now, src.Now());
        match p
        case Pending => return Waiting;
        case Failed(e) =>
          BlamesEarlier(|src.stream|, old(src.Now()), now, src.Now(), e);
          return Error(e);
        case Ready(n) =>
          if n == 0 {
            return Error(UnexpectedEof);
          }
      }
      assert buf[..] == buf[..read];
      r := Number(FromBytes(ty, buf[..]));
    }

    /** Polls until the number is there. */
    method Await() returns (r: Outcome)
      requires Valid() && read < ty.width
      modifies this, src, buf
      ensures src.Valid() && src.pos >= old(src.pos) && !r.Waiting?
      ensures |src.schedule| <= old(|src.schedule|) && Leads(|src.stream|, old(src.Now()), src.Now())
      ensures match r
              case Waiting => false
              case Number(v) =>
                && src.faults == old(src.faults)
                && src.pos == from + ty.width && |src.schedule| < old(|src.schedule|)
                && v == FromBytes(ty, src.stream[from..from + ty.width])
              case Error(e) => src.pos < from + ty.width && src.faults == old(src.faults) + 1 && Blames(old(src.schedule), src.Now(), e)
    {
      hide Leads, Blames;
      r := Poll();
      while r.Waiting?
        invariant Leads(|src.stream|, old(src.Now()), src.Now())
        invariant Valid() && src.pos >= old(src.pos)
        invariant match r
                  case Waiting => read < ty.width && src.faults == old(src.faults)
                  case Number(v) =>
                    && src.faults == old(src.faults)
                    && src.pos == from + ty.width && |src.schedule| < old(|src.schedule|)
                    && v == FromBytes(ty, src.stream[from..from + ty.width])
                  case Error(e) => read < ty.width && src.faults == old(src.faults) + 1 && Blames(old(src.schedule), src.Now(), e)
        invariant |src.schedule| <= old(|src.schedule|)
        decreases |src.schedule|, r.Waiting?
      {
        ghost var now := src.Now();
        r := Poll();
        if r.Error? {
          BlamesEarlier(|src.stream|, old(src.Now()), now, src.Now(), r.error);
        }
        LeadsOn(|src.stream|, old(src.Now()), now, src.Now());
      }
    }
  }

  const U8: NumberType := NumberType(1, false, false)

  /** `reader.read_u8().await` */
  method ReadU8(src: Source) returns (r: Outcome)
    requires src.Valid()
    modifies src
    ensures src.Valid() && |src.schedule| <= old(|src.schedule|) && src.pos >= old(src.pos)
    ensures Leads(|src.stream|, old(src.Now()), src.Now())
    ensures match r
            case Waiting => false
            case Number(v) =>
              && src.pos == old(src.pos) + 1 && src.faults == old(src.faults)
              && v == src.stream[old(src.pos)]
              && |src.schedule| < old(|src.schedule|)
            case Error(e) => src.pos == old(src.pos) && src.faults == old(src.faults) + 1 && Blames(old(src.schedule), src.Now(), e)
  {
    hide Leads, Blames;
    var future := new ReadNumber(src, U8);
    r := future.Await();
    if r.Number? {
      BeOne(src.stream[future.from]);
      assert src.stream[future.from..future.from + 1] == [src.stream[future.from]];
    }
  }

  const U32LE: NumberType := NumberType(4, false, true)

  /** `reader.read_u32_le().await` */
  method ReadU32Le(src: Source) returns (r: Outcome)
    requires src.Valid()
    modifies src
    ensures src.Valid() && |src.schedule| <= old(|src.schedule|) && src.pos >= old(src.pos)
    ensures match r
            case Waiting => false
            case Number(v) =>
              && src.pos == old(src.pos) + 4 && src.faults == old(src.faults)
              && var bs := src.stream[old(src.pos)..src.pos];
              v == bs[0] as nat + 0x100 * (bs[1] as nat) + 0x1_0000 * (bs[2] as nat) + 0x100_0000 * (bs[3] as nat)
            case Error(e) => src.faults == old(src.faults) + 1 && Blames(old(src.schedule), src.Now(), e)
  {
    hide Leads, Blames, Le, Be;
    var future := new ReadNumber(src, U32LE);
    r := future.Await();
    if r.Number? {
      ghost var bs := src.stream[future.from..future.from + 4];
      FourBytes(bs[0], bs[1], bs[2], bs[3]);
      assert bs == [bs[0], bs[1], bs[2], bs[3]];
    }
  }
}
