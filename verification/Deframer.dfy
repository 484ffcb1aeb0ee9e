/**
 The state machine of the de-framer: what one complete block and one delivery
 to the caller do to its two buffers, its escape flag and its digest.
 */
module Deframer {
  import opened Bytes
  import opened Errors
  import opened Deframing
  import Crc

  /** `ReadBuf`, `ReturnBuf` and `End` are the states the reader goes through. */
  datatype Mode = ReadBuf | ReturnBuf(returned: nat, lastOne: bool) | End

  /** `active` and `passive` are the filled parts of the buffers with the IDs 0 and 1. */
  datatype Machine = Machine(mode: Mode, inEsc: bool, active: seq<byte>, passive: seq<byte>, reg: nat)

  const FRESH: Machine := Machine(ReadBuf, false, [], [], StartRegister())

  // ------------------------------------------------------------ transitions

  /** After a swap, the block that has become active is returned, unless there is none yet. */
  function ReturnOrRead(m: Machine): Machine {
    if |m.active| > 0 then m.(mode := ReturnBuf(0, false)) else m.(mode := ReadBuf)
  }

  function Swap(m: Machine): Machine {
    m.(active := m.passive, passive := m.active)
  }

  /** The fill bytes are cut off the block held back, which becomes the last one to return. */
  function OnFill(m: Machine, fill: byte): (Machine, Option<IoError>) {
    var swapped := Swap(m);
    if fill > 3 || |swapped.active| < fill then (swapped.(mode := End), Some(Unknown))
    else
      var kept := swapped.active[..|swapped.active| - fill];
      (swapped.(active := kept, mode := ReturnBuf(0, true)), None)
  }

  /** The trailer ends the frame, if it carries the right check value. */
  function OnTrailer(m: Machine): (Machine, Option<IoError>)
    requires |m.active| == 4
  {
    var cleared := m.(active := [], reg := Crc.INIT);
    if ReceivedCrc(m.active) != Crc.Finalize(Crc.Update(m.reg, m.active[..2])) then (cleared.(mode := End), Some(Unknown))
    else OnFill(cleared, m.active[1])
  }

  /** What a complete block in the active buffer does. */
  function OnBlock(m: Machine): (Machine, Option<IoError>)
    requires |m.active| == 4
  {
    if m.inEsc then
      if m.active == ESCAPE then
        (ReturnOrRead(Swap(m.(inEsc := false, reg := Crc.Update(m.reg, m.active)))), None)
      else if m.active[0] == 0x1A then OnTrailer(m)
      else (m.(mode := End), Some(Unimplemented))
    else
      var digested := m.(reg := Crc.Update(m.reg, m.active));
      if m.active == ESCAPE then (digested.(active := [], inEsc := true), None)
      else (ReturnOrRead(Swap(digested)), None)
  }

  /** How many bytes go out when the caller has room for `room`. */
  function Handed(m: Machine, room: nat): nat
    requires m.mode.ReturnBuf? && m.mode.returned <= |m.active|
  {
    var left := |m.active| - m.mode.returned;
    if room < left then room else left
  }

  /** Handing out bytes; the end is reached together with the last byte of the last block. */
  function OnReturn(m: Machine, room: nat): Machine
    requires m.mode.ReturnBuf? && m.mode.returned <= |m.active|
  {
    var returned := m.mode.returned + Handed(m, room);
    if m.mode.returned == |m.active| then
      m.(active := [], mode := if m.mode.lastOne then End else ReadBuf)
    else if m.mode.lastOne && returned == |m.active| then m.(active := [], mode := End)
    else m.(mode := ReturnBuf(returned, m.mode.lastOne))
  }

  // ------------------------------------------------- the decoder it refines

  /** The buffers fit the state: what is active, what is held back, and where in the stream we are. */
  predicate Inv(m: Machine, stream: seq<byte>, pos: nat) {
    && pos <= |stream|
    && match m.mode
       case ReadBuf =>
         && |m.active| <= 3
         && (|m.passive| == 0 || |m.passive| == 4)
         && |m.active| <= pos
         && stream[pos - |m.active|..pos] == m.active
       case ReturnBuf(returned, lastOne) =>
         if lastOne then |m.active| <= 4 && (returned < |m.active| || |m.active| == 0 == returned) && m.passive == []
         else |m.active| == 4 == |m.passive| && returned <= 4 && !m.inEsc
       case End => true
  }

  /** All that the reader will still deliver from here on, and how it will end. */
  function Ahead(m: Machine, stream: seq<byte>, pos: nat): Feed
    requires Inv(m, stream, pos)
  {
    match m.mode
    case ReadBuf => Decode(stream, pos - |m.active|, m.reg, m.inEsc, m.passive)
    case ReturnBuf(returned, lastOne) =>
      if lastOne then Feed(m.active[returned..], Ended, pos)
      else Prepend(m.active[returned..], Decode(stream, pos, m.reg, m.inEsc, m.passive))
    case End => Feed([], Ended, pos)
  }

  /** A complete block keeps the promise of what lies ahead, or ends the frame with the decoder's error. */
  lemma {:induction false} BlockRefines(m: Machine, stream: seq<byte>, pos: nat)
    requires m.mode.ReadBuf? && |m.active| == 4 && (|m.passive| == 0 || |m.passive| == 4)
    requires 4 <= pos <= |stream| && stream[pos - 4..pos] == m.active
    ensures var (n, error) := OnBlock(m);
            var f := Decode(stream, pos - 4, m.reg, m.inEsc, m.passive);
            if error.None? then n.mode != End && Inv(n, stream, pos) && Ahead(n, stream, pos) == f
            else n.mode.End? && f == Feed([], Broken(error.value), pos)
  {
    hide Crc.Update;
    var (n, error) := OnBlock(m);
    assert stream[pos - 4..pos - 4 + 4] == m.active;
    if error.None? && n.mode.ReadBuf? && m.passive == [] {
      var f := Ahead(n, stream, pos);
      assert [] + f.data == f.data;
    }
  }

  /** Handing out bytes takes exactly these bytes off what lies ahead. */
  lemma {:induction false} ReturnRefines(m: Machine, stream: seq<byte>, pos: nat, room: nat)
    requires Inv(m, stream, pos) && m.mode.ReturnBuf?
    ensures var n, k, r := OnReturn(m, room), Handed(m, room), m.mode.returned;
            && Inv(n, stream, pos)
            && Ahead(m, stream, pos) == Prepend(m.active[r..r + k], Ahead(n, stream, pos))
  {
    hide Decode, Prepend;
    var n, k, r := OnReturn(m, room), Handed(m, room), m.mode.returned;
    SliceSplit(m.active, r, r + k);
    var f := Ahead(n, stream, pos);
    PrependSplit(m.active[r..r + k], m.active[r + k..], f);
    if !m.mode.lastOne {
      PrependSplit(m.active[r..r + k], m.active[r + k..], Decode(stream, pos, m.reg, m.inEsc, m.passive));
    }
  }

  lemma {:induction false} SliceSplit(s: seq<byte>, i: nat, j: nat)
    requires i <= j <= |s|
    ensures s[i..] == s[i..j] + s[j..]
    ensures j == |s| ==> s[j..] == []
  {
  }

  lemma {:induction false} PrependSplit(a: seq<byte>, b: seq<byte>, f: Feed)
    ensures Prepend(a + b, f) == Prepend(a, Prepend(b, f))
    ensures b == [] ==> Prepend(b, f) == f
    ensures Prepend(a, f.(data := b)) == f.(data := a + b)
  {
    assert (a + b) + f.data == a + (b + f.data);
    if b == [] {
      assert b + f.data == f.data;
    }
  }

  // ---------------------------------------------------------- exact ending

  /** A held back block always leaves something to deliver: at most three of its bytes are fill. */
  lemma {:induction false} HeldComesOut(stream: seq<byte>, p: nat, reg: nat, esc: bool, held: seq<byte>)
    requires |held| == 4
    requires Decode(stream, p, reg, esc, held).verdict.Ended?
    ensures Decode(stream, p, reg, esc, held).data != []
    decreases |stream| - p
  {
    hide Crc.Update;
    var block := stream[p..p + 4];
    if !esc && block == ESCAPE {
      HeldComesOut(stream, p + 4, Crc.Update(reg, block), true, held);
    }
  }

  /** Without a block held back nothing has gone out yet (`at` counts the bytes that have). */
  predicate NothingLost(m: Machine, at: nat) {
    && (m.mode.ReadBuf? && m.passive == [] ==> at == 0)
    && (m.mode.ReturnBuf? && m.mode.lastOne && m.active == [] ==> at == 0)
  }

  /** As long as the reader has not ended, a frame that will end well still has bytes to deliver. */
  lemma {:induction false} EndsWithLastByte(m: Machine, stream: seq<byte>, pos: nat, at: nat)
    requires Inv(m, stream, pos) && NothingLost(m, at) && !m.mode.End? && at > 0
    requires Ahead(m, stream, pos).verdict.Ended?
    ensures Ahead(m, stream, pos).data != []
  {
    hide Decode;
    match m.mode
    case ReadBuf => HeldComesOut(stream, pos - |m.active|, m.reg, m.inEsc, m.passive);
    case ReturnBuf(returned, lastOne) =>
      if !lastOne {
        HeldComesOut(stream, pos, m.reg, m.inEsc, m.passive);
      }
  }

  // --------------------------------------------------------------- history

  /** The data blocks among the raw blocks `seen`, and whether an escape is pending. */
  function Unescape(seen: seq<Block>): (seq<Block>, bool) {
    if seen == [] then ([], false)
    else
      var (data, esc) := Unescape(seen[..|seen| - 1]);
      var block := seen[|seen| - 1];
      if block == ESCAPE && !esc then (data, true) else (data + [block], false)
  }

  /** The raw blocks `seen` end with a trailer whose check value matches, and carry `payload`. */
  predicate Complete(seen: seq<Block>, payload: seq<byte>) {
    && seen != []
    && var front, last := seen[..|seen| - 1], seen[|seen| - 1];
    var (data, esc) := Unescape(front);
    && esc
    && last[0] == 0x1A
    && last[1] <= 3
    && (data == [] ==> last[1] == 0)
    && ReceivedCrc(last) == Crc.Finalize(Crc.Update(StartRegister(), Flat(front) + last[..2]))
    && payload == Payload(data, last[1])
  }

  /**
   What the machine knows about the raw blocks it has seen, when `out` has been delivered:
   the digest covers every one of them, and the latest data block is still held back.
   */
  predicate History(m: Machine, seen: seq<Block>, out: seq<byte>) {
    match m.mode
    case ReadBuf =>
      && m.reg == Crc.Update(StartRegister(), Flat(seen))
      && m.inEsc == Unescape(seen).1
      && out + m.passive == Flat(Unescape(seen).0)
    case ReturnBuf(returned, lastOne) =>
      && returned <= |m.active|
      && if lastOne then Complete(seen, out + m.active[returned..])
         else
           && m.reg == Crc.Update(StartRegister(), Flat(seen))
           && m.inEsc == Unescape(seen).1
           && out + m.active[returned..] + m.passive == Flat(Unescape(seen).0)
    case End => Complete(seen, out)
  }

  lemma {:induction false} SeenGrows(seen: seq<Block>, block: Block)
    ensures Flat(seen + [block]) == Flat(seen) + block
    ensures var (data, esc) := Unescape(seen);
            Unescape(seen + [block]) == if block == ESCAPE && !esc then (data, true) else (data + [block], false)
    ensures Crc.Update(StartRegister(), Flat(seen + [block])) == Crc.Update(Crc.Update(StartRegister(), Flat(seen)), block)
  {
    hide Crc.Update;
    assert (seen + [block])[..|seen|] == seen;
    Crc.UpdateConcat(StartRegister(), Flat(seen), block);
  }

  /** A complete block without an error keeps the history. */
  lemma {:induction false} HistoryOfBlock(m: Machine, seen: seq<Block>, out: seq<byte>)
    requires m.mode.ReadBuf? && |m.active| == 4 && (|m.passive| == 0 || |m.passive| == 4)
    requires History(m.(active := []), seen, out)
    requires OnBlock(m).1.None?
    ensures History(OnBlock(m).0, seen + [m.active], out)
  {
    hide Crc.Update;
    SeenGrows(seen, m.active);
    var (data, esc) := Unescape(seen);
    if esc && m.active != ESCAPE {
      HistoryOfTrailer(m, seen, out);
    } else if m.active != ESCAPE || esc {
      assert Flat(data + [m.active]) == Flat(data) + m.active by {
        assert (data + [m.active])[..|data|] == data;
      }
      assert m.passive[0..] == m.passive;
    }
  }

  lemma {:induction false} HistoryOfTrailer(m: Machine, seen: seq<Block>, out: seq<byte>)
    requires m.mode.ReadBuf? && |m.active| == 4 && (|m.passive| == 0 || |m.passive| == 4)
    requires History(m.(active := []), seen, out)
    requires m.inEsc && m.active != ESCAPE && OnBlock(m).1.None?
    ensures History(OnBlock(m).0, seen + [m.active], out)
  {
    hide Crc.Update;
    var all, data := seen + [m.active], Unescape(seen).0;
    assert all[..|all| - 1] == seen;
    Crc.UpdateConcat(StartRegister(), Flat(seen), m.active[..2]);
    var fill := m.active[1];
    var n := OnBlock(m).0;
    assert |out| + |m.passive| == 4 * |data|;
    assert n.active[0..] == m.passive[..|m.passive| - fill];
    assert out + n.active[0..] == Flat(data)[..4 * |data| - fill];
  }

  /** Handing out bytes keeps the history. */
  lemma {:induction false} HistoryOfReturn(m: Machine, seen: seq<Block>, out: seq<byte>, room: nat)
    requires m.mode.ReturnBuf? && History(m, seen, out)
    ensures var r := m.mode.returned;
            History(OnReturn(m, room), seen, out + m.active[r..r + Handed(m, room)])
  {
    hide Crc.Update, Complete;
    var r, k := m.mode.returned, Handed(m, room);
    assert m.active[r..] == m.active[r..r + k] + m.active[r + k..];
    assert out + m.active[r..] == (out + m.active[r..r + k]) + m.active[r + k..];
    if r + k == |m.active| {
      assert (out + m.active[r..r + k]) + m.active[r + k..] == out + m.active[r..r + k];
    }
  }

  /**
   Hold-back: what has been delivered is a beginning of the data blocks without the latest
   one, until a trailer with a matching check value has been seen.
   */
  lemma {:induction false} HoldBack(m: Machine, seen: seq<Block>, out: seq<byte>)
    requires History(m, seen, out)
    requires m.mode.ReadBuf? || (m.mode.ReturnBuf? && !m.mode.lastOne)
    requires m.passive == [] || |m.passive| == 4
    requires m.passive == [] ==> out == []
    ensures var data := Unescape(seen).0;
            if data == [] then out == [] else out <= Flat(data[..|data| - 1])
  {
    hide Crc.Update;
    var data := Unescape(seen).0;
    if data != [] {
      var front := Flat(data[..|data| - 1]);
      assert Flat(data) == front + data[|data| - 1];
      assert out <= Flat(data);
      if m.passive == [] {
      } else {
        assert |out| <= |front|;
        assert out == Flat(data)[..|out|] == front[..|out|];
      }
    }
  }

  // ------------------------------------------------- a frame being received

  /**
   A frame whose first block stands at `start` of the stream, of which `at` payload bytes
   have been delivered and the raw blocks `seen` have been read completely.
   */
  datatype Track = Track(stream: seq<byte>, start: nat, at: nat, seen: seq<Block>)
  {
    function Feed(): Feed {
      DecodeFrame(stream, start)
    }

    /** What the pure decoder still owes after the first `at` bytes. */
    function Rest(): Feed
      requires at <= |Feed().data|
    {
      Feed().(data := Feed().data[at..])
    }

    function Delivered(): seq<byte>
      requires at <= |Feed().data|
    {
      Feed().data[..at]
    }
  }

  /** The machine, standing at raw position `pos`, is receiving the frame `t`. */
  predicate Tracks(m: Machine, t: Track, pos: nat) {
    && !m.mode.End?
    && Inv(m, t.stream, pos)
    && NothingLost(m, t.at)
    && t.at <= |t.Feed().data|
    && Ahead(m, t.stream, pos) == t.Rest()
    && History(m, t.seen, t.Delivered())
    && SeenUpTo(t, if m.mode.ReadBuf? then pos - |m.active| else pos)
  }

  /** The raw blocks read are the frame's, up to position `q`. */
  predicate SeenUpTo(t: Track, q: int) {
    t.start <= q <= |t.stream| && t.stream[t.start..q] == Flat(t.seen)
  }

  /** Like `Tracks`, in the moment after the last byte of a block has come in. */
  predicate TracksFull(m: Machine, t: Track, pos: nat) {
    && m.mode.ReadBuf? && |m.active| == 4 <= pos <= |t.stream|
    && t.stream[pos - 4..pos] == m.active
    && Tracks(m.(active := []), t, pos - 4)
  }

  /** The machine has reached the end of the frame without an error. */
  predicate Finished(m: Machine, t: Track, pos: nat) {
    && m.mode.End?
    && t.Feed() == Feed(t.Feed().data, Ended, pos)
    && t.at == |t.Feed().data|
    && Complete(t.seen, t.Feed().data)
    && SeenUpTo(t, pos)
  }

  /**
   Whenever the source is polled, the active buffer has room, and the other one is full
   or, before the first data block, empty.
   */
  lemma {:induction false} RoomToRead(m: Machine, t: Track, pos: nat)
    requires m.mode.ReadBuf? && Tracks(m, t, pos)
    ensures |m.active| <= 3
    ensures |m.passive| == 4 || (m.passive == [] && t.at == 0)
    ensures t.start <= pos - |m.active|
  {
    hide Decode, Crc.Update, Unescape;
  }

  /** While the source is polled, the frame goes on behind what has been read, unless the stream is over. */
  lemma {:induction false} WantsMore(m: Machine, t: Track, pos: nat)
    requires m.mode.ReadBuf? && Tracks(m, t, pos)
    ensures !t.Feed().verdict.Starved? ==> pos < t.Feed().next
  {
    hide Crc.Update, Unescape, Escape, History, SeenUpTo, DecodeFrame;
    assert Ahead(m, t.stream, pos).next == t.Feed().next && Ahead(m, t.stream, pos).verdict == t.Feed().verdict;
    DecodesOn(t.stream, pos - |m.active|, m.reg, m.inEsc, m.passive);
  }

  lemma {:induction false} DecodesOn(stream: seq<byte>, p: nat, reg: nat, esc: bool, held: seq<byte>)
    requires p <= |stream|
    ensures var f := Decode(stream, p, reg, esc, held);
            !f.verdict.Starved? ==> f.next >= p + 4
  {
    hide Crc.Update;
  }

  lemma {:induction false} ReturnedWithin(m: Machine, t: Track, pos: nat)
    requires m.mode.ReturnBuf? && Tracks(m, t, pos)
    ensures m.mode.returned <= |m.active|
    ensures !m.mode.lastOne ==> |m.passive| == 4
    ensures m.mode.lastOne && m.active == [] ==> t.at == 0
  {
    hide Decode, Crc.Update, Unescape;
  }

  lemma {:induction false} TracksWithin(m: Machine, t: Track, pos: nat)
    requires Tracks(m, t, pos)
    ensures t.at <= |t.Feed().data| && !m.mode.End?
  {
    hide Decode, Crc.Update, Unescape;
  }

  /** A reader that has not ended still owes bytes of a frame that will be accepted. */
  lemma {:induction false} StillOwes(m: Machine, t: Track, pos: nat)
    requires Tracks(m, t, pos) && t.at > 0 && t.Feed().verdict.Ended?
    ensures t.at < |t.Feed().data|
  {
    hide Decode, History, SeenUpTo;
    EndsWithLastByte(m, t.stream, pos, t.at);
  }

  lemma {:induction false} HistoryOf(m: Machine, t: Track, pos: nat)
    requires Tracks(m, t, pos) && (m.mode.ReadBuf? || !m.mode.lastOne)
    ensures SeenUpTo(t, if m.mode.ReadBuf? then pos - |m.active| else pos)
    ensures t.at <= |t.Feed().data| && History(m, t.seen, t.Delivered())
    ensures |m.passive| == 4 || (m.passive == [] && t.Delivered() == [])
    ensures m.reg == Crc.Update(StartRegister(), Flat(t.seen))
  {
    hide Decode, Crc.Update, Unescape;
  }

  lemma {:induction false} TracksFresh(stream: seq<byte>, start: nat)
    requires start <= |stream|
    ensures Tracks(FRESH, Track(stream, start, 0, []), start)
  {
    hide Decode, Crc.Update;
    assert Crc.Update(StartRegister(), Flat([])) == StartRegister() by { NothingDigested(StartRegister()); }
    var f := DecodeFrame(stream, start);
    assert f.data[0..] == f.data;
  }

  lemma {:induction false} NothingDigested(reg: nat)
    ensures Crc.Update(reg, Flat([])) == reg
  {
  }

  /** Raw bytes that arrive for the active buffer, as many as the source likes to give. */
  lemma {:induction false} TracksFill(m: Machine, t: Track, pos: nat, n: nat)
    requires m.mode.ReadBuf? && Tracks(m, t, pos)
    requires |m.active| + n <= 4 && pos + n <= |t.stream|
    ensures var filled := m.(active := m.active + t.stream[pos..pos + n]);
            if |m.active| + n < 4 then Tracks(filled, t, pos + n) else TracksFull(filled, t, pos + n)
  {
    hide Decode, Crc.Update, DecodeFrame, History, SeenUpTo;
    var filled := m.(active := m.active + t.stream[pos..pos + n]);
    HistoryWhileReading(m, filled.active, t.seen, t.Delivered());
    HistoryWhileReading(m, [], t.seen, t.Delivered());
    var from := pos - |m.active|;
    assert t.stream[from..pos + n] == filled.active;
    assert t.stream[from..from] == [];
  }

  lemma {:induction false} HistoryWhileReading(m: Machine, active: seq<byte>, seen: seq<Block>, out: seq<byte>)
    requires m.mode.ReadBuf?
    ensures History(m.(active := active), seen, out) == History(m, seen, out)
  {
    hide Crc.Update, Unescape;
  }

  lemma {:induction false} TracksBlock(m: Machine, t: Track, pos: nat)
    requires TracksFull(m, t, pos)
    ensures var (n, error) := OnBlock(m);
            if error.None? then Tracks(n, t.(seen := t.seen + [m.active]), pos)
            else
              && n.mode.End? && t.Feed().verdict == Broken(error.value)
              && t.at == |t.Feed().data| && t.Feed().next == pos
  {
    hide Decode, Crc.Update, Unescape, DecodeFrame, OnBlock, SeenUpTo, Inv, History;
    var clear := m.(active := []);
    RoomToRead(clear, t, pos - 4);
    AheadWhileReading(clear, t.stream, pos - 4);
    BlockRefines(m, t.stream, pos);
    BlockShape(m, t.at);
    var (n, error) := OnBlock(m);
    if error.None? {
      HistoryOfBlock(m, t.seen, t.Delivered());
      SeenBlock(t, m.active, pos);
    }
  }

  lemma {:induction false} AheadWhileReading(m: Machine, stream: seq<byte>, pos: nat)
    requires Inv(m, stream, pos) && m.mode.ReadBuf?
    ensures |m.active| <= pos
    ensures Ahead(m, stream, pos) == Decode(stream, pos - |m.active|, m.reg, m.inEsc, m.passive)
  {
    hide Decode;
  }

  lemma {:induction false} BlockShape(m: Machine, at: nat)
    requires m.mode.ReadBuf? && |m.active| == 4 && (|m.passive| == 4 || (m.passive == [] && at == 0))
    ensures var (n, error) := OnBlock(m);
            && NothingLost(n, at)
            && (n.mode.ReadBuf? ==> n.active == [])
  {
    hide Crc.Update;
  }

  lemma {:induction false} SeenBlock(t: Track, block: Block, pos: nat)
    requires 4 <= pos <= |t.stream| && t.stream[pos - 4..pos] == block
    requires SeenUpTo(t, pos - 4)
    ensures SeenUpTo(t.(seen := t.seen + [block]), pos)
  {
    assert (t.seen + [block])[..|t.seen|] == t.seen;
    assert t.stream[t.start..pos] == t.stream[t.start..pos - 4] + t.stream[pos - 4..pos];
  }

  lemma {:induction false} ReturnShape(m: Machine, room: nat, at: nat)
    requires m.mode.ReturnBuf? && m.mode.returned <= |m.active|
    requires !m.mode.lastOne ==> |m.passive| == 4
    requires m.mode.lastOne && m.active == [] ==> at == 0
    ensures var n, k := OnReturn(m, room), Handed(m, room);
            && NothingLost(n, at + k)
            && (n.mode.ReadBuf? ==> n.active == [])
  {
  }

  lemma {:induction false} TracksReturn(m: Machine, t: Track, pos: nat, room: nat)
    requires m.mode.ReturnBuf? && Tracks(m, t, pos)
    ensures m.mode.returned <= |m.active|
    ensures var n, k, r := OnReturn(m, room), Handed(m, room), m.mode.returned;
            && t.at + k <= |t.Feed().data|
            && m.active[r..r + k] == t.Feed().data[t.at..t.at + k]
            && (if n.mode.End? then Finished(n, t.(at := t.at + k), pos)
                else Tracks(n, t.(at := t.at + k), pos))
  {
    hide DecodeFrame, OnReturn, SeenUpTo, Ahead, History, Inv, NothingLost;
    ReturnedWithin(m, t, pos);
    var n, k, r := OnReturn(m, room), Handed(m, room), m.mode.returned;
    ReturnShape(m, room, t.at);
    ReturnRefines(m, t.stream, pos, room);
    HistoryOfReturn(m, t.seen, t.Delivered(), room);
    Advance(t, m.active[r..r + k], Ahead(n, t.stream, pos));
    SeenDespiteDelivery(t, t.at + k, pos);
    if n.mode.End? {
      FinishedFrame(n, t.(at := t.at + k), pos);
    }
  }

  lemma {:induction false} SeenDespiteDelivery(t: Track, at: nat, q: int)
    ensures SeenUpTo(t.(at := at), q) == SeenUpTo(t, q)
  {
  }

  lemma {:induction false} FinishedFrame(m: Machine, t: Track, pos: nat)
    requires m.mode.End? && Inv(m, t.stream, pos) && t.at <= |t.Feed().data|
    requires t.Rest() == Ahead(m, t.stream, pos)
    requires History(m, t.seen, t.Delivered()) && SeenUpTo(t, pos)
    ensures Finished(m, t, pos)
  {
    hide DecodeFrame, Complete, SeenUpTo;
    assert t.Rest() == Feed([], Ended, pos);
    assert t.at == |t.Feed().data|;
    assert t.Delivered() == t.Feed().data;
  }

  /** Delivering `out` moves on in the frame's data. */
  lemma {:induction false} Advance(t: Track, out: seq<byte>, after: Feed)
    requires t.at <= |t.Feed().data|
    requires t.Rest() == Prepend(out, after)
    ensures t.at + |out| <= |t.Feed().data|
    ensures out == t.Feed().data[t.at..t.at + |out|]
    ensures t.(at := t.at + |out|).Rest() == after
    ensures t.(at := t.at + |out|).Delivered() == t.Delivered() + out
  {
    hide DecodeFrame;
    var data, k := t.Feed().data, |out|;
    assert data[t.at..] == out + after.data;
    assert data[t.at..t.at + k] == data[t.at..][..k] == out;
    assert data[t.at + k..] == data[t.at..][k..] == after.data;
    assert data[..t.at + k] == data[..t.at] + data[t.at..t.at + k];
  }

  // ------------------------------------------------ where the stream stands

  /** For each byte that the reader will still deliver, how far the stream will have been read. */
  function MarksAhead(m: Machine, stream: seq<byte>, pos: nat): seq<nat> {
    match m.mode
    case ReadBuf => if |m.active| <= pos then Marks(stream, pos - |m.active|, m.reg, m.inEsc, m.passive) else []
    case ReturnBuf(returned, lastOne) =>
      var left := if returned <= |m.active| then |m.active| - returned else 0;
      if lastOne then Copies(pos, left) else Copies(pos, left) + Marks(stream, pos, m.reg, m.inEsc, m.passive)
    case End => []
  }

  /** The reader has not read further than it must for the bytes delivered, or out of the frame. */
  predicate Placed(m: Machine, t: Track, pos: nat) {
    && t.at <= |t.Feed().data|
    && MarksAhead(m, t.stream, pos) == FrameMarks(t.stream, t.start)[t.at..]
    && pos <= t.Feed().next
  }

  /** The same in the moment after the last byte of a block has come in. */
  predicate PlacedFull(m: Machine, t: Track, pos: nat) {
    && 4 <= pos && Placed(m.(active := []), t, pos - 4) && pos <= t.Feed().next
  }

  lemma {:induction false} PlacedWithin(m: Machine, t: Track, pos: nat)
    ensures Placed(m, t, pos) || PlacedFull(m, t, pos) ==> pos <= t.Feed().next
  {
  }

  lemma {:induction false} PlacedFresh(stream: seq<byte>, start: nat)
    requires start <= |stream|
    ensures Placed(FRESH, Track(stream, start, 0, []), start)
  {
    hide Marks, Decode;
    var marks := FrameMarks(stream, start);
    assert marks[0..] == marks;
  }

  lemma {:induction false} DecodeReadsOn(stream: seq<byte>, p: nat, reg: nat, esc: bool, held: seq<byte>, n: nat)
    requires n <= 4 && p + n <= |stream|
    ensures Decode(stream, p, reg, esc, held).next >= p + n
  {
    hide Crc.Update;
  }

  lemma {:induction false} PlacedFill(m: Machine, t: Track, pos: nat, n: nat)
    requires m.mode.ReadBuf? && Tracks(m, t, pos) && Placed(m, t, pos)
    requires |m.active| + n <= 4 && pos + n <= |t.stream|
    ensures var filled := m.(active := m.active + t.stream[pos..pos + n]);
            if |m.active| + n < 4 then Placed(filled, t, pos + n) else PlacedFull(filled, t, pos + n)
  {
    hide Marks, Decode, DecodeFrame, FrameMarks, History, SeenUpTo;
    DecodeReadsOn(t.stream, pos - |m.active|, m.reg, m.inEsc, m.passive, |m.active| + n);
    assert Ahead(m, t.stream, pos).next == t.Feed().next;
  }

  lemma {:induction false} PlacedBlock(m: Machine, t: Track, pos: nat, seen: seq<Block>)
    requires m.mode.ReadBuf? && |m.active| == 4 && pos <= |t.stream| && PlacedFull(m, t, pos)
    requires t.stream[pos - 4..pos] == m.active
    ensures var (n, error) := OnBlock(m);
            error.None? ==> Placed(n, t.(seen := seen), pos)
  {
    hide DecodeFrame, FrameMarks, Decode, Crc.Update;
    BlockMarks(m, t.stream, pos);
  }

  lemma {:induction false} BlockMarks(m: Machine, stream: seq<byte>, pos: nat)
    requires m.mode.ReadBuf? && |m.active| == 4 && 4 <= pos <= |stream| && stream[pos - 4..pos] == m.active
    ensures var (n, error) := OnBlock(m);
            error.None? ==> MarksAhead(n, stream, pos) == Marks(stream, pos - 4, m.reg, m.inEsc, m.passive)
  {
    if m.inEsc && m.active != ESCAPE {
      TrailerMarks(m, stream, pos);
    } else if m.active == ESCAPE && !m.inEsc {
      hide Marks, Decode, Crc.Update, Copies;
      MarksStep(stream, pos - 4, m.reg, m.inEsc, m.passive, m.active);
    } else {
      hide Marks, Decode, Crc.Update, Copies, OnTrailer, MarksAhead, ReturnOrRead, Escape;
      EscapeItself(m.reg, m.passive);
      MarksStep(stream, pos - 4, m.reg, m.inEsc, m.passive, m.active);
      CopiesNone(pos, Marks(stream, pos, Crc.Update(m.reg, m.active), false, m.active));
      MarksOfSwap(m.(inEsc := false, reg := Crc.Update(m.reg, m.active)), stream, pos);
    }
  }

  lemma {:induction false} MarksOfSwap(m: Machine, stream: seq<byte>, pos: nat)
    ensures MarksAhead(ReturnOrRead(Swap(m)), stream, pos)
            == if m.passive == [] then Marks(stream, pos, m.reg, m.inEsc, m.active)
               else Copies(pos, |m.passive|) + Marks(stream, pos, m.reg, m.inEsc, m.active)
  {
    hide Marks, Copies;
  }

  lemma {:induction false} EscapeItself(reg: nat, held: seq<byte>)
    ensures Escape(reg, held, ESCAPE).Literal?
  {
  }

  lemma {:induction false} TrailerMarks(m: Machine, stream: seq<byte>, pos: nat)
    requires m.mode.ReadBuf? && |m.active| == 4 && 4 <= pos <= |stream| && stream[pos - 4..pos] == m.active
    requires m.inEsc && m.active != ESCAPE
    ensures var (n, error) := OnBlock(m);
            error.None? ==> MarksAhead(n, stream, pos) == Marks(stream, pos - 4, m.reg, m.inEsc, m.passive)
  {
    hide Marks, Decode, Crc.Update, Crc.Finalize, ReceivedCrc, Copies;
    MarksStep(stream, pos - 4, m.reg, m.inEsc, m.passive, m.active);
  }

  lemma {:induction false} CopiesNone(v: nat, rest: seq<nat>)
    ensures Copies(v, 0) == [] && Copies(v, 0) + rest == rest
  {
  }

  lemma {:induction false} MarksStep(stream: seq<byte>, p: nat, reg: nat, esc: bool, held: seq<byte>, block: Block)
    requires p + 4 <= |stream| && stream[p..p + 4] == block
    ensures var reg' := Crc.Update(reg, block);
            Marks(stream, p, reg, esc, held)
            == if !esc && block == ESCAPE then Marks(stream, p + 4, reg', true, held)
               else if !esc || Escape(reg, held, block).Literal? then
                 Copies(p + 4, |held|) + Marks(stream, p + 4, reg', false, block)
               else
                 match Escape(reg, held, block)
                 case Last(fill) => if fill <= |held| then Copies(p + 4, |held| - fill) else []
                 case _ => []
  {
    hide Decode, Crc.Update, Crc.Finalize, ReceivedCrc, Copies;
  }

  lemma {:induction false} PlacedReturn(m: Machine, t: Track, pos: nat, room: nat)
    requires m.mode.ReturnBuf? && m.mode.returned <= |m.active| && Placed(m, t, pos)
    requires t.at + Handed(m, room) <= |t.Feed().data|
    ensures var n, k := OnReturn(m, room), Handed(m, room);
            && (!n.mode.End? ==> Placed(n, t.(at := t.at + k), pos))
            && (k > 0 ==> FrameMarks(t.stream, t.start)[t.at + k - 1] == pos)
  {
    hide DecodeFrame, FrameMarks, Decode, Marks;
    var n, k, left := OnReturn(m, room), Handed(m, room), |m.active| - m.mode.returned;
    var marks := FrameMarks(t.stream, t.start);
    CopiesSplit(pos, k, left - k);
    if k > 0 {
      assert marks[t.at..][k - 1] == pos;
    }
    assert marks[t.at + k..] == marks[t.at..][k..];
    assert Copies(pos, 0) == [];
  }

  lemma {:induction false} CopiesSplit(v: nat, a: nat, b: nat)
    ensures Copies(v, a + b) == Copies(v, a) + Copies(v, b)
  {
  }
}
