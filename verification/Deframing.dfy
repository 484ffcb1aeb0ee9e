/**
 The SML transport protocol, version 1, as pure functions on byte strings:
 a block-by-block decoder, the encoder it inverts, and the lemmas that
 make each the partner of the other.
 */
module Deframing {
  import opened Bytes
  import opened Errors
  import Crc

  const ESCAPE: seq<byte> := [0x1B, 0x1B, 0x1B, 0x1B]
  const START: seq<byte> := [0x1B, 0x1B, 0x1B, 0x1B, 0x01, 0x01, 0x01, 0x01]

  /** How a frame comes out: complete, refused, or not all there yet. */
  datatype Verdict = Ended | Broken(error: IoError) | Starved

  /** All data bytes of a frame, its outcome, and the position in the raw stream where it stops. */
  datatype Feed = Feed(data: seq<byte>, verdict: Verdict, next: nat)

  /** The value that a trailer block announces as the frame's check value. */
  function ReceivedCrc(block: seq<byte>): nat
    requires |block| == 4
  {
    Le(block[2..])
  }

  /** What becomes of a block that follows an escape block: data, the end of the frame, or an error. */
  datatype Escaped = Literal | Last(fill: nat) | Refused(error: IoError)

  function Escape(reg: nat, held: seq<byte>, block: seq<byte>): Escaped
    requires |block| == 4
  {
    if block == ESCAPE then Literal
    else if block[0] == 0x1A then
      if ReceivedCrc(block) != Crc.Finalize(Crc.Update(reg, block[..2])) then Refused(Unknown)
      else if block[1] > 3 || |held| < block[1] then Refused(Unknown)
      else Last(block[1])
    else Refused(Unimplemented)
  }

  function Prepend(bs: seq<byte>, f: Feed): Feed {
    f.(data := bs + f.data)
  }

  /**
   Decodes the blocks of `stream` from position `p` on. `reg` is the digest so far,
   `esc` tells that the block before was an escape block, and `held` is the latest
   data block, which goes out only when it is known not to be the last one.
   */
  function Decode(stream: seq<byte>, p: nat, reg: nat, esc: bool, held: seq<byte>): (f: Feed)
    ensures p <= |stream| ==> p <= f.next <= |stream|
    decreases |stream| - p
  {
    if p + 4 > |stream| then
      Feed([], Starved, |stream|)
    else
      var block := stream[p..p + 4];
      if esc then
        match Escape(reg, held, block)
        case Literal => Prepend(held, Decode(stream, p + 4, Crc.Update(reg, block), false, block))
        case Last(fill) =>
          assert fill <= |held|;
          Feed(held[..|held| - fill], Ended, p + 4)
        case Refused(e) => Feed([], Broken(e), p + 4)
      else if block == ESCAPE then
        Decode(stream, p + 4, Crc.Update(reg, block), true, held)
      else
        Prepend(held, Decode(stream, p + 4, Crc.Update(reg, block), false, block))
  }

  /** The digest register of a reader that has just seen the start marker. */
  function StartRegister(): nat {
    Crc.Update(Crc.INIT, START)
  }

  /** The frame whose first block stands at `p`. */
  function DecodeFrame(stream: seq<byte>, p: nat): (f: Feed)
    ensures p <= |stream| ==> p <= f.next <= |stream|
  {
    Decode(stream, p, StartRegister(), false, [])
  }

  /** For each data byte, the position in the stream up to which has been read when it comes out. */
  function Marks(stream: seq<byte>, p: nat, reg: nat, esc: bool, held: seq<byte>): (r: seq<nat>)
    ensures |r| == |Decode(stream, p, reg, esc, held).data|
    decreases |stream| - p
  {
    if p + 4 > |stream| then []
    else
      var block := stream[p..p + 4];
      var reg' := Crc.Update(reg, block);
      if esc then
        match Escape(reg, held, block)
        case Literal => Copies(p + 4, |held|) + Marks(stream, p + 4, reg', false, block)
        case Last(fill) =>
          assert fill <= |held|;
          Copies(p + 4, |held| - fill)
        case Refused(e) => []
      else if block == ESCAPE then Marks(stream, p + 4, reg', true, held)
      else Copies(p + 4, |held|) + Marks(stream, p + 4, reg', false, block)
  }

  function FrameMarks(stream: seq<byte>, p: nat): (r: seq<nat>)
    ensures |r| == |DecodeFrame(stream, p).data|
  {
    Marks(stream, p, StartRegister(), false, [])
  }

  /** How far the stream has been read when the first `k` bytes of the frame at `p` are just out. */
  function PlaceOf(stream: seq<byte>, p: nat, k: nat): nat {
    var marks := FrameMarks(stream, p);
    if 0 < k <= |marks| then marks[k - 1] else p
  }

  // ---------------------------------------------------------------- encoder

  type Block = b: seq<byte> | |b| == 4 witness [0, 0, 0, 0]

  /** The bytes of some blocks. */
  function Flat(blocks: seq<Block>): (r: seq<byte>)
    ensures |r| == 4 * |blocks|
  {
    if blocks == [] then []
    else Flat(blocks[..|blocks| - 1]) + blocks[|blocks| - 1]
  }

  /** A block as it is sent: doubled if it looks like an escape block. */
  function StuffBlock(block: Block): seq<byte> {
    if block == ESCAPE then ESCAPE + ESCAPE else block
  }

  function Stuff(blocks: seq<Block>): seq<byte> {
    if blocks == [] then []
    else Stuff(blocks[..|blocks| - 1]) + StuffBlock(blocks[|blocks| - 1])
  }

  function CrcBytes(crc: nat): (r: seq<byte>)
    requires crc < 0x1_0000
    ensures |r| == 2
  {
    [crc % 256, crc / 256]
  }

  /** Everything of a frame after the start marker that its check value covers. */
  function Covered(blocks: seq<Block>, fill: byte): seq<byte> {
    Stuff(blocks) + (ESCAPE + [0x1A, fill])
  }

  /** A frame without its start marker: stuffed blocks of which the last `fill` bytes are padding. */
  function RawFrame(blocks: seq<Block>, fill: byte): seq<byte> {
    var covered := Covered(blocks, fill);
    Crc.FinalizeFits(Crc.Update(Crc.INIT, START + covered));
    covered + CrcBytes(Crc.Crc16(START + covered))
  }

  // ------------------------------------------------------------ round trip

  /** `bs` stands at position `p` of `stream`. */
  predicate At(stream: seq<byte>, p: nat, bs: seq<byte>) {
    p + |bs| <= |stream| && stream[p..p + |bs|] == bs
  }

  lemma {:induction false} AtParts(stream: seq<byte>, p: nat, a: seq<byte>, b: seq<byte>)
    ensures At(stream, p, a + b) <==> At(stream, p, a) && At(stream, p + |a|, b)
  {
    if At(stream, p, a + b) {
      assert stream[p..p + |a|] == (a + b)[..|a|];
      assert stream[p + |a|..p + |a| + |b|] == (a + b)[|a|..];
    }
    if At(stream, p, a) && At(stream, p + |a|, b) {
      assert stream[p..p + |a| + |b|] == stream[p..p + |a|] + stream[p + |a|..p + |a| + |b|];
    }
  }

  /** The block held back after decoding `blocks` on top of `held`. */
  function HeldAfter(held: seq<byte>, blocks: seq<Block>): seq<byte> {
    if blocks == [] then held else blocks[|blocks| - 1]
  }

  /** What has gone out once `blocks` are decoded on top of `held`. */
  function Released(held: seq<byte>, blocks: seq<Block>): seq<byte> {
    if blocks == [] then [] else held + Flat(blocks[..|blocks| - 1])
  }

  /** One data block, plain or doubled, releases the block held before it. */
  lemma {:induction false} DecodeData(stream: seq<byte>, p: nat, reg: nat, held: seq<byte>, block: Block)
    requires At(stream, p, StuffBlock(block))
    ensures var q := p + |StuffBlock(block)|;
            Decode(stream, p, reg, false, held)
            == Prepend(held, Decode(stream, q, Crc.Update(reg, StuffBlock(block)), false, block))
  {
    if block == ESCAPE {
      AtParts(stream, p, ESCAPE, ESCAPE);
      Crc.UpdateConcat(reg, ESCAPE, ESCAPE);
    }
  }

  lemma {:induction false} PrependTwice(a: seq<byte>, b: seq<byte>, f: Feed)
    ensures Prepend(a, Prepend(b, f)) == Prepend(a + b, f)
  {
    assert a + (b + f.data) == (a + b) + f.data;
  }

  /** Decoding stuffed blocks delivers all of them but the one then held back. */
  lemma {:induction false} DecodeStuffed(stream: seq<byte>, p: nat, reg: nat, held: seq<byte>, blocks: seq<Block>)
    requires At(stream, p, Stuff(blocks))
    ensures Decode(stream, p, reg, false, held)
            == Prepend(Released(held, blocks),
                       Decode(stream, p + |Stuff(blocks)|, Crc.Update(reg, Stuff(blocks)), false, HeldAfter(held, blocks)))
    decreases |blocks|
  {
    hide Decode, Prepend, Crc.Update, StuffBlock, HeldAfter, Released, At, Flat;
    if blocks == [] {
      DecodeNone(stream, p, reg, held);
    } else {
      var front, block := blocks[..|blocks| - 1], blocks[|blocks| - 1];
      var done, raw := Stuff(front), StuffBlock(block);
      assert Stuff(blocks) == done + raw;
      hide Stuff;
      AtParts(stream, p, done, raw);
      DecodeStuffed(stream, p, reg, held, front);
      var q, last := p + |done|, HeldAfter(held, front);
      DecodeData(stream, q, Crc.Update(reg, done), last, block);
      Crc.UpdateConcat(reg, done, raw);
      PrependTwice(Released(held, front), last, Decode(stream, q + |raw|, Crc.Update(reg, done + raw), false, block));
      ReleasedAndHeld(held, front);
      LastHeld(held, blocks);
    }
  }

  lemma {:induction false} DecodeNone(stream: seq<byte>, p: nat, reg: nat, held: seq<byte>)
    ensures var f := Decode(stream, p, reg, false, held);
            && f == Prepend(Released(held, []), f)
            && Stuff([]) == [] && Crc.Update(reg, []) == reg && HeldAfter(held, []) == held
  {
    hide Decode;
    var f := Decode(stream, p, reg, false, held);
    assert [] + f.data == f.data;
  }

  lemma {:induction false} LastHeld(held: seq<byte>, blocks: seq<Block>)
    requires blocks != []
    ensures HeldAfter(held, blocks) == blocks[|blocks| - 1]
    ensures Released(held, blocks) == held + Flat(blocks[..|blocks| - 1])
  {
  }

  lemma {:induction false} ReleasedAndHeld(held: seq<byte>, blocks: seq<Block>)
    ensures Released(held, blocks) + HeldAfter(held, blocks) == held + Flat(blocks)
  {
    if blocks == [] {
      NothingMore(held);
    } else {
      var front, last := blocks[..|blocks| - 1], blocks[|blocks| - 1];
      LastHeld(held, blocks);
      assert Flat(blocks) == Flat(front) + last;
      hide Released, HeldAfter, Flat;
      Associative(held, Flat(front), last);
    }
  }

  lemma {:induction false} NothingMore(held: seq<byte>)
    ensures Released(held, []) + HeldAfter(held, []) == held + Flat([])
  {
    assert [] + held == held + [];
  }

  /** The trailer ends the frame when it carries the right check value. */
  lemma {:induction false} DecodeTrailer(stream: seq<byte>, p: nat, reg: nat, held: seq<byte>, fill: byte, crc: seq<byte>)
    requires |crc| == 2 && fill <= 3 && fill <= |held|
    requires At(stream, p, ESCAPE + ([0x1A, fill] + crc))
    requires Le(crc) == Crc.Finalize(Crc.Update(reg, ESCAPE + [0x1A, fill]))
    ensures Decode(stream, p, reg, false, held) == Feed(held[..|held| - fill], Ended, p + 8)
  {
    var block := [0x1A, fill] + crc;
    AtParts(stream, p, ESCAPE, block);
    assert block[2..] == crc && block[..2] == [0x1A, fill];
    Crc.UpdateConcat(reg, ESCAPE, [0x1A, fill]);
  }

  lemma {:induction false} CrcBytesValue(crc: nat)
    requires crc < 0x1_0000
    ensures Le(CrcBytes(crc)) == crc
  {
    var bs := CrcBytes(crc);
    SwappedBe(bs);
    assert bs[0] as int + 256 * (bs[1] as int) == crc;
  }

  /** Padding never reaches beyond the last block. */
  predicate Padded(blocks: seq<Block>, fill: byte) {
    fill <= 3 && (blocks == [] ==> fill == 0)
  }

  /** The payload that padded blocks carry. */
  function Payload(blocks: seq<Block>, fill: byte): seq<byte>
    requires Padded(blocks, fill)
  {
    Flat(blocks)[..4 * |blocks| - fill]
  }

  /**
   Transport round trip: whatever the blocks and their padding, and whatever
   follows in the stream, decoding a frame gives back the payload, and stops
   just after the frame.
   */
  lemma {:induction false} RoundTrip(stream: seq<byte>, p: nat, blocks: seq<Block>, fill: byte)
    requires Padded(blocks, fill)
    requires At(stream, p, RawFrame(blocks, fill))
    ensures DecodeFrame(stream, p) == Feed(Payload(blocks, fill), Ended, p + |RawFrame(blocks, fill)|)
  {
    hide Decode, Crc.Update;
    var covered := Covered(blocks, fill);
    var crc := Crc.Crc16(START + covered);
    Crc.FinalizeFits(Crc.Update(Crc.INIT, START + covered));
    var tail := ESCAPE + ([0x1A, fill] + CrcBytes(crc));
    FrameParts(blocks, fill);
    AtParts(stream, p, Stuff(blocks), tail);
    DecodeStuffed(stream, p, StartRegister(), [], blocks);
    var reg := Crc.Update(StartRegister(), Stuff(blocks));
    Crc.UpdateConcat(Crc.INIT, START, covered);
    Crc.UpdateConcat(StartRegister(), Stuff(blocks), ESCAPE + [0x1A, fill]);
    CrcBytesValue(crc);
    var held := HeldAfter([], blocks);
    DecodeTrailer(stream, p + |Stuff(blocks)|, reg, held, fill, CrcBytes(crc));
    ReleasedAndHeld([], blocks);
    assert [] + Flat(blocks) == Flat(blocks);
    assert Released([], blocks) + held[..|held| - fill] == Payload(blocks, fill);
  }

  lemma {:induction false} FrameParts(blocks: seq<Block>, fill: byte)
    ensures var crc := Crc.Crc16(START + Covered(blocks, fill));
            crc < 0x1_0000 && RawFrame(blocks, fill) == Stuff(blocks) + (ESCAPE + ([0x1A, fill] + CrcBytes(crc)))
  {
    hide Crc.Update;
    Crc.FinalizeFits(Crc.Update(Crc.INIT, START + Covered(blocks, fill)));
    var crc := Crc.Crc16(START + Covered(blocks, fill));
    assert Stuff(blocks) + (ESCAPE + [0x1A, fill]) + CrcBytes(crc)
        == Stuff(blocks) + (ESCAPE + ([0x1A, fill] + CrcBytes(crc)));
  }

  /** Splits a payload into blocks, filling up the last one with zeroes. */
  function Chop(payload: seq<byte>): seq<Block> {
    if payload == [] then []
    else if |payload| <= 4 then [payload + [0, 0, 0, 0][|payload|..]]
    else [payload[..4]] + Chop(payload[4..])
  }

  function FillOf(payload: seq<byte>): (fill: byte)
    ensures fill <= 3
  {
    if payload == [] then 0 else if |payload| <= 4 then 4 - |payload| else FillOf(payload[4..])
  }

  lemma {:induction false} ChopPays(payload: seq<byte>)
    ensures Padded(Chop(payload), FillOf(payload))
    ensures Payload(Chop(payload), FillOf(payload)) == payload
    decreases |payload|
  {
    if payload == [] {
    } else if |payload| <= 4 {
      var last := payload + [0, 0, 0, 0][|payload|..];
      FlatCons(last, []);
      assert [last] + [] == [last];
      assert Flat(Chop(payload)) == last;
    } else {
      var block, rest := payload[..4], payload[4..];
      ChopPays(rest);
      FlatCons(block, Chop(rest));
      assert payload == block + Payload(Chop(rest), FillOf(rest));
    }
  }

  /** The frame that carries a payload. */
  function FrameOf(payload: seq<byte>): seq<byte> {
    RawFrame(Chop(payload), FillOf(payload))
  }

  /** Every payload, of any length, survives being framed and decoded. */
  lemma {:induction false} PayloadRoundTrip(stream: seq<byte>, p: nat, payload: seq<byte>)
    requires At(stream, p, FrameOf(payload))
    ensures DecodeFrame(stream, p) == Feed(payload, Ended, p + |FrameOf(payload)|)
  {
    ChopPays(payload);
    RoundTrip(stream, p, Chop(payload), FillOf(payload));
  }

  // -------------------------------------------- nothing but frames is accepted

  /** What an accepted stream holds: stuffed blocks and a trailer whose check value matches. */
  predicate Accepted(stream: seq<byte>, p: nat, reg: nat, blocks: seq<Block>, fill: byte, crc: seq<byte>) {
    && |crc| == 2
    && At(stream, p, Stuff(blocks) + (ESCAPE + ([0x1A, fill] + crc)))
    && Le(crc) == Crc.Finalize(Crc.Update(reg, Stuff(blocks) + (ESCAPE + [0x1A, fill])))
  }

  lemma {:induction false} FlatCons(block: Block, rest: seq<Block>)
    ensures Flat([block] + rest) == block + Flat(rest)
    decreases |rest|
  {
    var all := [block] + rest;
    if rest == [] {
      assert all[..|all| - 1] == [];
    } else {
      var front, last := rest[..|rest| - 1], rest[|rest| - 1];
      FlatCons(block, front);
      assert all[..|all| - 1] == [block] + front;
      assert (block + Flat(front)) + last == block + (Flat(front) + last);
    }
  }

  lemma {:induction false} StuffCons(block: Block, rest: seq<Block>)
    ensures Stuff([block] + rest) == StuffBlock(block) + Stuff(rest)
    decreases |rest|
  {
    hide StuffBlock;
    var all := [block] + rest;
    if rest == [] {
      assert all[..|all| - 1] == [];
      assert Stuff([]) + StuffBlock(block) == StuffBlock(block) + Stuff([]);
    } else {
      var front, last := rest[..|rest| - 1], rest[|rest| - 1];
      StuffCons(block, front);
      assert all[..|all| - 1] == [block] + front;
      assert (StuffBlock(block) + Stuff(front)) + StuffBlock(last) == StuffBlock(block) + (Stuff(front) + StuffBlock(last));
    }
  }

  lemma {:induction false} Associative(a: seq<byte>, b: seq<byte>, c: seq<byte>)
    ensures a + (b + c) == (a + b) + c
  {
  }

  lemma {:induction false} AcceptedCons(stream: seq<byte>, p: nat, reg: nat, block: Block, rest: seq<Block>, fill: byte, crc: seq<byte>)
    requires At(stream, p, StuffBlock(block))
    requires var raw := StuffBlock(block); Accepted(stream, p + |raw|, Crc.Update(reg, raw), rest, fill, crc)
    ensures Accepted(stream, p, reg, [block] + rest, fill, crc)
  {
    hide Crc.Update, StuffBlock, Stuff;
    var raw := StuffBlock(block);
    StuffCons(block, rest);
    var tail, signed := ESCAPE + ([0x1A, fill] + crc), ESCAPE + [0x1A, fill];
    AtParts(stream, p, raw, Stuff(rest) + tail);
    Associative(raw, Stuff(rest), tail);
    Associative(raw, Stuff(rest), signed);
    Crc.UpdateConcat(reg, raw, Stuff(rest) + signed);
  }

  lemma {:induction false} AcceptedTrailer(stream: seq<byte>, p: nat, reg: nat, held: seq<byte>)
    returns (fill: byte, crc: seq<byte>)
    requires At(stream, p, ESCAPE) && p + 8 <= |stream|
    requires Escape(Crc.Update(reg, ESCAPE), held, stream[p + 4..p + 8]).Last?
    ensures Accepted(stream, p, reg, [], fill, crc) && Stuff([]) == []
    ensures Escape(Crc.Update(reg, ESCAPE), held, stream[p + 4..p + 8]) == Last(fill)
  {
    hide Crc.Update;
    var block := stream[p + 4..p + 8];
    fill, crc := block[1], block[2..];
    assert block == [0x1A, fill] + crc && block[..2] == [0x1A, fill];
    AtParts(stream, p, ESCAPE, block);
    assert Stuff([]) + (ESCAPE + block) == ESCAPE + block;
    assert Stuff([]) + (ESCAPE + [0x1A, fill]) == ESCAPE + [0x1A, fill];
    Crc.UpdateConcat(reg, ESCAPE, [0x1A, fill]);
  }

  /** On the way to an accepted frame the decoder meets a data block or the trailer. */
  lemma {:induction false} NextBlock(stream: seq<byte>, p: nat, reg: nat, held: seq<byte>) returns (last: bool, block: Block)
    requires p <= |stream|
    requires Decode(stream, p, reg, false, held).verdict.Ended?
    ensures !last ==> At(stream, p, StuffBlock(block)) && |StuffBlock(block)| >= 4
    ensures last ==>
              && At(stream, p, ESCAPE) && p + 8 <= |stream|
              && var e := Escape(Crc.Update(reg, ESCAPE), held, stream[p + 4..p + 8]);
              && e.Last?
              && e.fill <= 3 && e.fill <= |held|
              && Decode(stream, p, reg, false, held) == Feed(held[..|held| - e.fill], Ended, p + 8)
  {
    hide Crc.Update;
    block := stream[p..p + 4];
    last := false;
    if block == ESCAPE {
      if stream[p + 4..p + 8] == ESCAPE {
        AtParts(stream, p, ESCAPE, ESCAPE);
      } else {
        last := true;
      }
    }
  }

  /** Whatever the decoder accepts consists of stuffed blocks and a trailer with the right check value. */
  lemma {:induction false} AcceptedShape(stream: seq<byte>, p: nat, reg: nat, held: seq<byte>)
    returns (blocks: seq<Block>, fill: byte, crc: seq<byte>)
    requires p <= |stream|
    requires Decode(stream, p, reg, false, held).verdict.Ended?
    ensures Accepted(stream, p, reg, blocks, fill, crc)
    ensures fill <= 3 && fill <= |HeldAfter(held, blocks)|
    ensures var f := Decode(stream, p, reg, false, held);
            && f.next == p + |Stuff(blocks)| + 8
            && f.data == (held + Flat(blocks))[..|held| + 4 * |blocks| - fill]
    decreases |stream| - p
  {
    hide Decode, Crc.Update, Accepted, Stuff, StuffBlock;
    var last, block := NextBlock(stream, p, reg, held);
    if last {
      fill, crc := AcceptedTrailer(stream, p, reg, held);
      blocks := [];
      assert held + Flat([]) == held;
    } else {
      var raw := StuffBlock(block);
      DecodeData(stream, p, reg, held, block);
      var rest;
      rest, fill, crc := AcceptedShape(stream, p + |raw|, Crc.Update(reg, raw), block);
      blocks := [block] + rest;
      AcceptedCons(stream, p, reg, block, rest, fill, crc);
      FlatCons(block, rest);
      StuffCons(block, rest);
      assert held + (block + Flat(rest))[..4 + 4 * |rest| - fill]
          == (held + Flat(blocks))[..|held| + 4 * |blocks| - fill];
    }
  }

  /**
   The decoder accepts frames and nothing else: a stream is accepted exactly
   when a frame stands at `p`, and then the frame's payload comes out.
   */
  lemma {:induction false} AcceptsExactlyFrames(stream: seq<byte>, p: nat)
    requires p <= |stream|
    ensures DecodeFrame(stream, p).verdict.Ended?
            <==> exists blocks, fill: byte :: Padded(blocks, fill) && At(stream, p, RawFrame(blocks, fill))
    ensures forall blocks, fill: byte :: Padded(blocks, fill) && At(stream, p, RawFrame(blocks, fill))
              ==> DecodeFrame(stream, p) == Feed(Payload(blocks, fill), Ended, p + |RawFrame(blocks, fill)|)
  {
    forall blocks, fill: byte | Padded(blocks, fill) && At(stream, p, RawFrame(blocks, fill))
      ensures DecodeFrame(stream, p) == Feed(Payload(blocks, fill), Ended, p + |RawFrame(blocks, fill)|)
    {
      RoundTrip(stream, p, blocks, fill);
    }
    if DecodeFrame(stream, p).verdict.Ended? {
      var blocks, fill, crc := AcceptedShape(stream, p, StartRegister(), []);
      AcceptedIsFrame(stream, p, blocks, fill, crc);
    }
  }

  lemma {:induction false} AcceptedIsFrame(stream: seq<byte>, p: nat, blocks: seq<Block>, fill: byte, crc: seq<byte>)
    requires Accepted(stream, p, StartRegister(), blocks, fill, crc)
    ensures At(stream, p, RawFrame(blocks, fill))
  {
    hide Crc.Update, Crc.Finalize, Stuff, At;
    FrameParts(blocks, fill);
    var covered := Covered(blocks, fill);
    Crc.UpdateConcat(Crc.INIT, START, covered);
    CrcBytesBack(crc);
    hide Le, CrcBytes;
    assert Le(crc) == Crc.Crc16(START + covered);
  }

  lemma {:induction false} CrcBytesBack(crc: seq<byte>)
    requires |crc| == 2
    ensures Le(crc) < 0x1_0000 && CrcBytes(Le(crc)) == crc
  {
    SwappedBe(crc);
  }

  // ------------------------------------------------------ frames broken off

  /**
   A frame that breaks off between two blocks, so that the next start marker follows, swallows
   that marker: it looks like an unknown escape sequence, and the frame ends behind it.
   */
  lemma {:induction false} BrokenOff(stream: seq<byte>, p: nat, blocks: seq<Block>)
    requires At(stream, p, Stuff(blocks) + START)
    ensures DecodeFrame(stream, p) == Feed(Released([], blocks), Broken(Unimplemented), p + |Stuff(blocks)| + 8)
  {
    hide Decode, Stuff, Released, HeldAfter, Crc.Update;
    var q, reg := p + |Stuff(blocks)|, Crc.Update(StartRegister(), Stuff(blocks));
    AtParts(stream, p, Stuff(blocks), START);
    DecodeStuffed(stream, p, StartRegister(), [], blocks);
    MarkerIsUnknown(stream, q, reg, HeldAfter([], blocks));
    assert Released([], blocks) + [] == Released([], blocks);
  }

  lemma {:induction false} MarkerIsUnknown(stream: seq<byte>, q: nat, reg: nat, held: seq<byte>)
    requires At(stream, q, START)
    ensures Decode(stream, q, reg, false, held) == Feed([], Broken(Unimplemented), q + 8)
  {
    hide Crc.Update;
    var second := [0x01, 0x01, 0x01, 0x01];
    assert START == ESCAPE + second;
    AtParts(stream, q, ESCAPE, second);
    assert stream[q + 4..q + 8] == second;
  }

  /** What comes out of a frame that ends with an error comes out before its last two blocks. */
  lemma {:induction false} MarksOfBroken(stream: seq<byte>, p: nat, reg: nat, esc: bool, held: seq<byte>)
    requires Decode(stream, p, reg, esc, held).verdict.Broken?
    ensures var next := Decode(stream, p, reg, esc, held).next;
            && next >= p + (if esc then 4 else 8)
            && forall m :: m in Marks(stream, p, reg, esc, held) ==> m <= next - 8
    decreases |stream| - p
  {
    hide Crc.Update, Crc.Finalize, ReceivedCrc;
    var block := stream[p..p + 4];
    var reg' := Crc.Update(reg, block);
    if esc {
      if Escape(reg, held, block).Literal? {
        MarksOfBroken(stream, p + 4, reg', false, block);
      }
    } else if block == ESCAPE {
      MarksOfBroken(stream, p + 4, reg', true, held);
    } else {
      MarksOfBroken(stream, p + 4, reg', false, block);
    }
  }
}
