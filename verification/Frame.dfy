/** The reader for one frame: unescaping, hold-back, fill bytes and check value over polled reads. */
module Frame {
  import opened Bytes
  import opened Errors
  import opened Io
  import opened Deframing
  import opened Deframer
  import Crc

  /** A buffer of 4 bytes that tracks how much was read. */
  class Buffer {
    const inner: array<byte>
    var read: nat

    constructor ()
      ensures Valid() && fresh(inner) && read == 0
    {
      inner := new byte[4];
      read := 0;
    }

    ghost predicate Valid()
      reads this
    {
      inner.Length == 4 && read <= 4
    }

    function Filled(): seq<byte>
      requires Valid()
      reads this, inner
    {
      inner[..read]
    }

    /** Keeps the first `n` bytes only. */
    method SetRead(n: nat)
      requires Valid() && n <= read
      modifies `read
      ensures Valid() && Filled() == old(Filled())[..n]
    {
      read := n;
    }

    /** Counts `n` bytes that have been put after those read before. */
    method AddRead(n: nat)
      requires Valid() && read + n <= 4
      modifies `read
      ensures Valid() && read == old(read) + n
      ensures Filled() == old(Filled()) + inner[old(read)..old(read) + n]
    {
      read := read + n;
    }

    /** Drops the last `n` bytes. */
    method SubRead(n: nat)
      requires Valid() && n <= read
      modifies `read
      ensures Valid() && Filled() == old(Filled())[..old(read) - n]
    {
      read := read - n;
    }

    /** Copies `n` bytes of the buffer to `buf`, from position `lo` on. */
    method CopyOut(from: nat, n: nat, buf: array<byte>, lo: nat)
      requires Valid() && from + n <= read && lo + n <= buf.Length && buf != inner
      modifies buf
      ensures buf[lo..lo + n] == Filled()[from..from + n]
      ensures forall i :: 0 <= i < buf.Length && !(lo <= i < lo + n) ==> buf[i] == old(buf[i])
    {
      ghost var source := Filled()[from..from + n];
      forall j | lo <= j < lo + n {
        buf[j] := inner[from + (j - lo)];
      }
      assert forall j :: lo <= j < lo + n ==> buf[j] == source[j - lo];
      assert buf[lo..lo + n] == source;
    }
  }

  class CheckingReader {
    const reader: Source
    var state: Mode
    var inEsc: bool
    const buffer0: Buffer
    const buffer1: Buffer
    var buffersSwapped: bool
    var digest: nat
    ghost const start: nat
    /** how the source stood when the frame began */
    ghost const begin: Standing
    /** payload bytes delivered */
    ghost var at: nat
    /** raw blocks read */
    ghost var seen: seq<Block>
    /** the error that ended the frame */
    ghost var fault: Option<IoError>

    /** The buffer with the given ID; IDs 0 and 1 change places with `buffersSwapped`. */
    function Get(index: nat): Buffer
      requires index < 2
      reads this
    {
      if (index == 0) == buffersSwapped then buffer1 else buffer0
    }

    ghost function Repr(): set<object> {
      {this, reader, buffer0, buffer1, buffer0.inner, buffer1.inner}
    }

    ghost predicate Shape()
      reads Repr()
    {
      && reader.Valid()
      && buffer0 != buffer1 && buffer0.inner != buffer1.inner
      && buffer0.Valid() && buffer1.Valid()
    }

    ghost function Snapshot(): Machine
      requires Shape()
      reads Repr()
    {
      Machine(state, inEsc, Get(0).Filled(), Get(1).Filled(), digest)
    }

    ghost function Progress(): Track
      reads this
    {
      Track(reader.stream, start, at, seen)
    }

    /** All payload bytes of this frame and its outcome, as the pure decoder gives them. */
    ghost function Feed(): Feed {
      DecodeFrame(reader.stream, start)
    }

    /** The source has been polled as long as blocks of the frame were missing, and not more. */
    ghost predicate PolledTo(now: Standing) {
      && Leads(|reader.stream|, begin, now)
      && (now.faults > begin.faults && !Feed().verdict.Starved? ==> now.pos < Feed().next)
    }

    ghost predicate Polled()
      reads this, reader
    {
      && PolledTo(reader.Now())
      && if reader.faults == begin.faults then true
         else reader.faults == begin.faults + 1 && fault.Some? && Blames(begin.schedule, reader.Now(), fault.value)
    }

    /** One more poll, while blocks are missing. */
    lemma {:induction false} PolledOn(now: Standing, after: Standing, r: Poll)
      requires PolledTo(now) && now.faults == begin.faults
      requires !Feed().verdict.Starved? ==> now.pos < Feed().next
      requires Leads(|reader.stream|, now, after) && (after.faults > now.faults ==> after.pos == now.pos)
      requires r.Failed? ==> Blames(now.schedule, after, r.error)
      ensures PolledTo(after)
      ensures r.Failed? ==> Blames(begin.schedule, after, r.error)
    {
      hide Leads, DecodeFrame, Blames;
      LeadsOn(|reader.stream|, begin, now, after);
      if r.Failed? {
        ShorterAfter(|reader.stream|, now, after);
        BlamesEarlier(|reader.stream|, begin, now, after, r.error);
      }
    }

    ghost predicate Valid()
      reads Repr()
      ensures Valid() ==> Polled() && reader.Valid() && at <= |Feed().data| && start <= reader.pos <= Feed().next
      ensures Valid() && HasEnded() && fault.None? ==>
                Feed().verdict.Ended? && at == |Feed().data| && reader.pos == Feed().next
    {
      && Shape() && Polled()
      && start <= reader.pos <= Feed().next
      && at <= |Feed().data|
      && if fault.Some? then state.End?
         else if state.End? then Finished(Snapshot(), Progress(), reader.pos)
         else Tracks(Snapshot(), Progress(), reader.pos) && Placed(Snapshot(), Progress(), reader.pos)
    }

    predicate HasEnded()
      reads this
    {
      state.End?
    }

    constructor (reader: Source)
      requires reader.Valid()
      ensures Valid() && fresh(Repr() - {reader})
      ensures this.reader == reader && start == reader.pos && begin == reader.Now()
      ensures at == 0 && fault.None? && !HasEnded()
    {
      this.reader := reader;
      state, inEsc, buffersSwapped := ReadBuf, false, false;
      buffer0 := new Buffer();
      buffer1 := new Buffer();
      digest := StartRegister();
      start, at, seen, fault := reader.pos, 0, [], None;
      begin := reader.Now();
      new;
      TracksFresh(reader.stream, reader.pos);
      PlacedFresh(reader.stream, reader.pos);
      LeadsNowhere(|reader.stream|, begin);
      hide Leads;
    }

    /** What the source gives goes behind the filled part of the active buffer. */
    method PollBuffer() returns (r: Poll)
      requires Shape() && Get(0).read < 4
      modifies reader, buffer0, buffer1, buffer0.inner, buffer1.inner
      ensures Shape()
      ensures Leads(|reader.stream|, old(reader.Now()), reader.Now())
      ensures |reader.schedule| <= old(|reader.schedule|) && reader.pos >= old(reader.pos)
      ensures var m := old(Snapshot());
              match r
              case Pending =>
                && Snapshot() == m && reader.pos == old(reader.pos) && reader.faults == old(reader.faults)
                && |reader.schedule| < old(|reader.schedule|)
              case Failed(e) =>
                && Snapshot() == m && reader.pos == old(reader.pos) && reader.faults == old(reader.faults) + 1
                && Blames(old(reader.schedule), reader.Now(), e)
              case Ready(n) =>
                && n > 0 && reader.pos == old(reader.pos) + n && reader.faults == old(reader.faults)
                && |m.active| + n <= 4
                && Snapshot() == m.(active := m.active + reader.stream[old(reader.pos)..reader.pos])
    {
      hide Leads, Blames;
      ghost var before, pos := Snapshot(), reader.pos;
      var buffer := Get(0);
      r := reader.PollRead(buffer.inner, buffer.read, 4);
      assert Get(1).Filled() == before.passive && Get(0).Filled() == before.active;
      if r.Ready? {
        buffer.AddRead(r.count);
        assert Get(0).Filled() == before.active + reader.stream[pos..reader.pos];
        assert Get(1).Filled() == before.passive;
      }
    }

    /** One poll of the source, for the free part of the active buffer. */
    method FillActive() returns (r: Poll)
      requires Valid() && state.ReadBuf?
      modifies Repr()
      ensures Shape() && Polled() && at == old(at) && seen == old(seen)
      ensures |reader.schedule| <= old(|reader.schedule|) && reader.pos >= old(reader.pos)
      ensures match r
              case Pending =>
                && Valid() && fault.None? && !HasEnded()
                && |reader.schedule| < old(|reader.schedule|) && reader.faults == old(reader.faults)
              case Failed(e) => Valid() && fault == Some(e) && reader.faults > old(reader.faults)
              case Ready(n) =>
                && fault.None? && state.ReadBuf? && reader.faults == old(reader.faults)
                && reader.pos > old(reader.pos)
                && if Get(0).read < 4 then Valid()
                   else TracksFull(Snapshot(), Progress(), reader.pos) && PlacedFull(Snapshot(), Progress(), reader.pos)
    {
      hide Tracks, TracksFull, Placed, PlacedFull, Finished, DecodeFrame;
      hide PolledTo, Blames, Leads;
      ghost var before, t, now := Snapshot(), Progress(), reader.Now();
      RoomToRead(before, t, reader.pos);
      WantsMore(before, t, reader.pos);
      r := PollBuffer();
      PolledOn(now, reader.Now(), r);
      assert Progress() == t;
      match r
      case Pending => assert Snapshot() == before && Tracks(before, t, reader.pos) && Placed(before, t, reader.pos);
      case Failed(e) => state, fault := End, Some(e);
      case Ready(n) =>
        TracksFill(before, t, old(reader.pos), n);
        PlacedFill(before, t, old(reader.pos), n);
        PlacedWithin(Snapshot(), Progress(), reader.pos);
    }

    method SwapBuffers()
      requires Shape()
      modifies `buffersSwapped
      ensures Shape() && Snapshot() == Swap(old(Snapshot()))
    {
      buffersSwapped := !buffersSwapped;
    }

    /** The trailer is in the active buffer: clears it and compares the check values. */
    method CheckTrailer() returns (matches: bool)
      requires Shape() && |Snapshot().active| == 4
      modifies `digest, buffer0, buffer1
      ensures Shape()
      ensures var m := old(Snapshot());
              && Snapshot() == m.(active := [], reg := Crc.INIT)
              && matches == (ReceivedCrc(m.active) == Crc.Finalize(Crc.Update(m.reg, m.active[..2])))
    {
      hide Crc.Update, Crc.Finalize, Be, Le, SwapBytes;
      var other := Get(0).Filled();
      SwappedBe(other[2..4]);
      var received := SwapBytes(Be(other[2..4]));
      assert other[2..4] == other[2..];
      digest := Crc.Update(digest, other[..2]);
      Get(0).SetRead(0);
      var calculated := Crc.Finalize(digest);
      digest := Crc.INIT;
      matches := received == calculated;
    }

    /** The check value was right: cuts the fill bytes off the block held back. */
    method CutFill(fill: byte) returns (error: Option<IoError>)
      requires Shape()
      modifies `state, `buffersSwapped, buffer0, buffer1
      ensures Shape() && (Snapshot(), error) == OnFill(old(Snapshot()), fill)
    {
      SwapBuffers();
      ghost var swapped := Snapshot();
      var buffer := Get(0);
      if fill > 3 || buffer.read < fill {
        state := End;
        return Some(Unknown);
      }
      buffer.SubRead(fill);
      assert Get(1).Filled() == swapped.passive;
      state := ReturnBuf(0, true);
      return None;
    }

    /** The trailer is in the active buffer: the frame ends here, well or with an error. */
    method EndFrame() returns (error: Option<IoError>)
      requires Shape() && |Snapshot().active| == 4
      modifies `state, `buffersSwapped, `digest, buffer0, buffer1
      ensures Shape() && (Snapshot(), error) == OnTrailer(old(Snapshot()))
    {
      hide Crc.Update, Crc.Finalize, OnFill;
      var fill := Get(0).Filled()[1];
      var matches := CheckTrailer();
      if !matches {
        state := End;
        return Some(Unknown);
      }
      error := CutFill(fill);
    }

    /** The block just digested is held back from now on, and the one held before is returned, if there is one. */
    method HoldBlock()
      requires Shape() && state.ReadBuf?
      modifies `state, `buffersSwapped
      ensures Shape() && Snapshot() == ReturnOrRead(Swap(old(Snapshot())))
    {
      SwapBuffers();
      if Get(0).read > 0 {
        state := ReturnBuf(0, false);
      }
    }

    /** A block is complete in the active buffer: data, an escape, or the trailer after one. */
    method CompleteBlock() returns (error: Option<IoError>)
      requires Shape() && |Snapshot().active| == 4 && state.ReadBuf?
      modifies `state, `inEsc, `buffersSwapped, `digest, buffer0, buffer1
      ensures Shape() && (Snapshot(), error) == OnBlock(old(Snapshot()))
    {
      hide Crc.Update, OnTrailer, ReturnOrRead;
      var buffer := Get(0);
      var block := buffer.Filled();
      if inEsc {
        if block == ESCAPE {
          inEsc := false;
          digest := Crc.Update(digest, block);
          HoldBlock();
          return None;
        } else if block[0] == 0x1A {
          error := EndFrame();
          return;
        } else {
          state := End;
          return Some(Unimplemented);
        }
      }
      digest := Crc.Update(digest, block);
      if block == ESCAPE {
        buffer.SetRead(0);
        inEsc := true;
        return None;
      }
      HoldBlock();
      return None;
    }

    /** Takes in the complete block, keeping track of the frame. */
    method TakeBlock() returns (error: Option<IoError>)
      requires Shape() && start <= reader.pos && fault.None?
      requires Polled() && TracksFull(Snapshot(), Progress(), reader.pos) && PlacedFull(Snapshot(), Progress(), reader.pos)
      modifies this, buffer0, buffer1
      ensures Valid() && at == old(at)
      ensures if error.None? then !HasEnded() && fault.None?
              else fault == error && Feed().verdict == Broken(error.value) && at == |Feed().data| && reader.pos == Feed().next
    {
      hide PolledTo, Blames, Tracks, Placed, DecodeFrame, OnBlock;
      ghost var before, t := Snapshot(), Progress();
      TracksBlock(before, t, reader.pos);
      PlacedBlock(before, t, reader.pos, seen + [before.active]);
      TracksWithin(before.(active := []), t, reader.pos - 4);
      error := CompleteBlock();
      if error.None? {
        seen := seen + [before.active];
        TracksWithin(Snapshot(), Progress(), reader.pos);
      } else {
        fault := error;
      }
    }

    /** Hands out bytes of the active buffer to `buf[lo..hi]`, or finds none left in it. */
    method HandOut(buf: array<byte>, lo: nat, hi: nat) returns (copied: Option<nat>)
      requires Shape() && state.ReturnBuf? && state.returned <= Get(0).read
      requires lo <= hi <= buf.Length && buf !in Repr()
      modifies `state, buffer0, buffer1, buf
      ensures Shape()
      ensures var m := old(Snapshot()); var r, n := m.mode.returned, Handed(m, hi - lo);
              && Snapshot() == OnReturn(m, hi - lo)
              && (copied == if r < |m.active| then Some(n) else None)
              && (copied.None? ==> !state.ReturnBuf?)
              && buf[lo..lo + n] == m.active[r..r + n]
              && forall i :: 0 <= i < buf.Length && !(lo <= i < lo + n) ==> buf[i] == old(buf[i])
    {
      var buffer := Get(0);
      var returned, lastOne := state.returned, state.lastOne;
      if returned < buffer.read {
        var left := buffer.read - returned;
        var copysize := if hi - lo < left then hi - lo else left;
        ghost var m := Snapshot();
        buffer.CopyOut(returned, copysize, buf, lo);
        assert Snapshot() == m && buf[lo..lo + copysize] == m.active[returned..returned + copysize];
        state := ReturnBuf(returned + copysize, lastOne);
        if lastOne && returned + copysize == buffer.read {
          buffer.SetRead(0);
          state := End;
        }
        return Some(copysize);
      }
      buffer.SetRead(0);
      state := if lastOne then End else ReadBuf;
      return None;
    }

    /**
     Hands out payload bytes to `buf[lo..hi]`, keeping track of the frame. Without any left in
     the active buffer the reader goes on with the next block, or ends.
     */
    method ReturnBytes(buf: array<byte>, lo: nat, hi: nat) returns (copied: Option<nat>)
      requires Valid() && state.ReturnBuf? && lo <= hi <= buf.Length && buf !in Repr()
      modifies this, buffer0, buffer1, buf
      ensures Valid() && fault.None?
      ensures var n := if copied.Some? then copied.value else 0;
              && at == old(at) + n && n <= hi - lo
              && (copied.None? ==> !state.ReturnBuf?)
              && (copied.Some? && n == 0 ==> lo == hi)
              && (n > 0 ==> reader.pos == PlaceOf(reader.stream, start, at))
              && buf[lo..lo + n] == Feed().data[old(at)..at]
              && forall i :: 0 <= i < buf.Length && !(lo <= i < lo + n) ==> buf[i] == old(buf[i])
    {
      hide PolledTo, Blames, Tracks, Placed, Finished, DecodeFrame, OnReturn, FrameMarks;
      ghost var before, t := Snapshot(), Progress();
      TracksReturn(before, t, reader.pos, hi - lo);
      PlacedReturn(before, t, reader.pos, hi - lo);
      copied := HandOut(buf, lo, hi);
      at := at + Handed(before, hi - lo);
      if !state.End? {
        TracksWithin(Snapshot(), Progress(), reader.pos);
      }
    }

    /**
     One poll by the caller, with room for `hi - lo` bytes. Whatever the schedule of the source,
     what comes out is the next piece of the decoded frame, and the final outcome is the
     decoder's; only a failing source can cut it short.
     */
    method PollRead(buf: array<byte>, lo: nat, hi: nat) returns (r: Poll)
      requires Valid() && lo <= hi <= buf.Length && buf !in Repr()
      modifies Repr(), buf
      ensures Valid()
      ensures reader.pos >= old(reader.pos) && |reader.schedule| <= old(|reader.schedule|)
      ensures reader.faults >= old(reader.faults)
      ensures old(fault).Some? ==> r == Ready(0) && fault == old(fault)
      ensures match r
              case Pending =>
                && at == old(at) && fault.None? && !HasEnded()
                && reader.faults == old(reader.faults) && |reader.schedule| < old(|reader.schedule|)
              case Ready(n) =>
                && at == old(at) + n && n <= hi - lo && fault == old(fault)
                && reader.faults == old(reader.faults)
                && buf[lo..lo + n] == Feed().data[old(at)..at]
                && (if n > 0 then reader.pos == PlaceOf(reader.stream, start, at) else lo < hi ==> HasEnded())
              case Failed(e) =>
                && at == old(at) && fault == Some(e)
                && (reader.faults > old(reader.faults)
                    || (Feed().verdict == Broken(e) && at == |Feed().data| && reader.pos == Feed().next))
      ensures var n := if r.Ready? then r.count else 0;
              forall i :: 0 <= i < buf.Length && !(lo <= i < lo + n) ==> buf[i] == old(buf[i])
    {
      hide Polled, PolledTo, Tracks, TracksFull, Placed, PlacedFull, Finished, DecodeFrame, PlaceOf;
      while true
        invariant Valid() && at == old(at) && fault == old(fault)
        invariant reader.pos >= old(reader.pos) && |reader.schedule| <= old(|reader.schedule|)
        invariant reader.faults == old(reader.faults)
        invariant forall i :: 0 <= i < buf.Length ==> buf[i] == old(buf[i])
        decreases |reader.stream| - reader.pos, if state.ReturnBuf? then 1 else 0
      {
        match state
        case ReadBuf =>
          r := FillActive();
          if !r.Ready? {
            return;
          }
          if Get(0).read < 4 {
            continue;
          }
          var error := TakeBlock();
          if error.Some? {
            return Failed(error.value);
          }
        case ReturnBuf(_, _) =>
          var copied := ReturnBytes(buf, lo, hi);
          if copied.Some? {
            return Ready(copied.value);
          }
        case End =>
          return Ready(0);
      }
    }

    /**
     Once payload has been delivered and no error was met, the reader has ended exactly when
     the frame was accepted and its whole payload is out; it then stands just after the frame,
     of whose raw bytes, all of them, the blocks read consist.
     */
    lemma {:induction false} EndIsExact()
      requires Valid() && fault.None? && at > 0
      ensures HasEnded() <==> Feed().verdict.Ended? && at == |Feed().data|
      ensures HasEnded() ==> reader.pos == Feed().next && Complete(seen, Feed().data)
      ensures HasEnded() ==> reader.stream[start..reader.pos] == Flat(seen)
    {
      hide PolledTo, Blames, Tracks, Placed, Decode, Complete;
      var m, t := Snapshot(), Progress();
      if !HasEnded() && Feed().verdict.Ended? {
        StillOwes(m, t, reader.pos);
      }
    }

    /**
     Before the trailer has been checked, what is delivered is a beginning of the data blocks
     read so far without the latest one, and the digest covers every raw byte up to the last
     complete block.
     */
    lemma {:induction false} HeldBack()
      requires Valid() && (state.ReadBuf? || (state.ReturnBuf? && !state.lastOne))
      ensures var complete := reader.pos - if state.ReadBuf? then Get(0).read else 0;
              && start <= complete <= |reader.stream|
              && reader.stream[start..complete] == Flat(seen)
              && digest == Crc.Update(StartRegister(), reader.stream[start..complete])
      ensures var data := Unescape(seen).0;
              if data == [] then at == 0 else Feed().data[..at] <= Flat(data[..|data| - 1])
    {
      hide PolledTo, Blames, Tracks, Placed, Decode, Unescape, Crc.Update;
      var m, t := Snapshot(), Progress();
      HistoryOf(m, t, reader.pos);
      HoldBack(m, t.seen, t.Delivered());
    }
  }
}
