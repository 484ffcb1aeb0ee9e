/** The reader that digests what it delivers, and reading exactly so many bytes through it. */
module Message {
  import opened Bytes
  import opened Errors
  import opened Io
  import opened Deframing
  import Crc
  import Frame

  /** How reading past the payload of a frame fails. */
  function PastEnd(verdict: Verdict): IoError {
    match verdict
    case Ended => UnexpectedEof
    case Broken(e) => e
    case Starved => Cut
  }

  class CheckingReader {
    const inner: Frame.CheckingReader
    var digest: nat
    /** the payload of the frame and its outcome */
    ghost const data: seq<byte>
    ghost const verdict: Verdict
    /** where in the stream its first block stands and the frame ends, and how far is read for each byte of the payload */
    ghost const start: nat
    ghost const next: nat
    ghost const marks: seq<nat>
    /** the bytes of it that have been delivered, and where digesting began */
    ghost var at: nat
    ghost var since: nat
    /** no error has been met so far */
    ghost var sound: bool
    /** the error that the frame has ended with */
    ghost var failure: Option<IoError>
    /** where the source stands, how often it has failed, and how many answers it has in store */
    ghost var raw: nat
    ghost var faults: nat
    ghost var pending: nat

    constructor (inner: Frame.CheckingReader)
      requires inner.Valid() && inner.fault.None?
      ensures Valid() && fresh(this) && this.inner == inner && since == at == inner.at && sound
      ensures data == inner.Feed().data && verdict == inner.Feed().verdict
      ensures start == inner.start && next == inner.Feed().next && marks == FrameMarks(inner.reader.stream, inner.start)
      ensures raw == inner.reader.pos
      ensures faults == inner.reader.faults && pending == |inner.reader.schedule|
    {
      hide Crc.Update, DecodeFrame, FrameMarks, Frame.CheckingReader.Valid, Frame.CheckingReader.Polled;
      this.inner := inner;
      digest := Crc.INIT;
      data, verdict := inner.Feed().data, inner.Feed().verdict;
      start, next, marks := inner.start, inner.Feed().next, FrameMarks(inner.reader.stream, inner.start);
      at, since, sound, failure := inner.at, inner.at, true, None;
      raw, faults, pending := inner.reader.pos, inner.reader.faults, |inner.reader.schedule|;
      new;
      NothingDigested(data, at);
    }

    ghost function Repr(): set<object> {
      {this} + inner.Repr()
    }

    /** The ghost fields say how the inner reader stands. */
    ghost predicate Mirrors()
      reads Repr()
      ensures Mirrors() ==> at <= |data| == |marks| && start <= raw <= next
    {
      && this !in inner.Repr()
      && inner.Valid()
      && data == inner.Feed().data && verdict == inner.Feed().verdict
      && at == inner.at && sound == inner.fault.None? && failure == inner.fault
      && start == inner.start && next == inner.Feed().next && marks == FrameMarks(inner.reader.stream, inner.start)
      && raw == inner.reader.pos && faults == inner.reader.faults && pending == |inner.reader.schedule|
    }

    /** They do, and the digest covers the bytes since `since`. */
    ghost predicate Valid()
      reads Repr()
      ensures Valid() ==> since <= at <= |data| == |marks| && start <= raw <= next
    {
      && Mirrors()
      && since <= at
      && digest == Crc.Update(Crc.INIT, data[since..at])
    }

    /** How far the stream has been read when the first `k` bytes of the payload are just out. */
    ghost function Place(k: nat): nat {
      if 0 < k <= |marks| then marks[k - 1] else start
    }

    /** The stream has been read as far as it must for the bytes delivered, and no further. */
    ghost predicate Settled()
      reads this
    {
      raw == Place(at)
    }

    predicate HasEnded()
      reads inner
    {
      inner.HasEnded()
    }

    /** Returns the check value of the bytes delivered since digesting began, and begins anew. */
    method Finalize() returns (crc: nat)
      requires Valid()
      modifies this`digest, this`since
      ensures Valid() && since == at
      ensures crc == Crc.Crc16(data[old(since)..at])
    {
      hide Crc.Update, DecodeFrame;
      crc := Crc.Finalize(digest);
      digest, since := Crc.INIT, at;
      NothingDigested(data, at);
    }

    method Reset()
      requires Valid()
      modifies this`digest, this`since
      ensures Valid() && since == at
    {
      hide Crc.Update, DecodeFrame;
      digest, since := Crc.INIT, at;
      NothingDigested(data, at);
    }

    /** One poll of the inner reader, before what it gives is digested. */
    method PollInner(buf: array<byte>, lo: nat, hi: nat) returns (r: Poll)
      requires Mirrors() && lo <= hi <= buf.Length && buf !in Repr()
      modifies Repr(), buf
      ensures Mirrors() && since == old(since) && digest == old(digest) && pending <= old(pending) && faults >= old(faults)
      ensures !old(sound) ==> r == Ready(0) && !sound
      ensures match r
              case Pending => sound && at == old(at) && faults == old(faults) && pending < old(pending)
              case Ready(n) =>
                && sound == old(sound) && at == old(at) + n && n <= hi - lo && faults == old(faults)
                && buf[lo..lo + n] == data[old(at)..at]
                && (n > 0 ==> Settled())
                && (sound && n == 0 && lo < hi ==> verdict.Ended? && at == |data| && raw == next)
              case Failed(e) =>
                && !sound && failure == Some(e) && at == old(at)
                && (faults > old(faults) || (verdict == Broken(e) && at == |data| && raw == next))
      ensures var n := if r.Ready? then r.count else 0;
              forall i :: 0 <= i < buf.Length && !(lo <= i < lo + n) ==> buf[i] == old(buf[i])
    {
      hide DecodeFrame, FrameMarks, PlaceOf, Place, Frame.CheckingReader.Valid, Frame.CheckingReader.Polled;
      PlacesAreMarks(inner.reader.stream);
      r := inner.PollRead(buf, lo, hi);
      at, sound, failure := inner.at, inner.fault.None?, inner.fault;
      raw, faults, pending := inner.reader.pos, inner.reader.faults, |inner.reader.schedule|;
    }

    /** One poll by the caller; after an error there is nothing more to get. */
    method PollRead(buf: array<byte>, lo: nat, hi: nat) returns (r: Poll)
      requires Valid() && lo <= hi <= buf.Length && buf !in Repr()
      modifies Repr(), buf
      ensures Valid() && since == old(since) && pending <= old(pending) && faults >= old(faults)
      ensures !old(sound) ==> r == Ready(0) && !sound
      ensures match r
              case Pending => sound && at == old(at) && faults == old(faults) && pending < old(pending)
              case Ready(n) =>
                && sound == old(sound) && at == old(at) + n && n <= hi - lo && faults == old(faults)
                && (forall i :: lo <= i < lo + n ==> buf[i] == data[old(at) + (i - lo)])
                && (n > 0 ==> Settled())
                && (sound && n == 0 && lo < hi ==> verdict.Ended? && at == |data| && raw == next)
              case Failed(e) =>
                && !sound && failure == Some(e) && at == old(at)
                && (faults > old(faults) || (verdict == Broken(e) && at == |data| && raw == next))
      ensures var n := if r.Ready? then r.count else 0;
              forall i :: 0 <= i < buf.Length && !(lo <= i < lo + n) ==> buf[i] == old(buf[i])
    {
      hide Crc.Update, DecodeFrame, FrameMarks, Place, Frame.CheckingReader.Valid, Frame.CheckingReader.Polled;
      ghost var from := at;
      r := PollInner(buf, lo, hi);
      if r.Ready? {
        DigestGrows(data, since, from, at);
        Elementwise(buf, lo, r.count, data, from);
        digest := Crc.Update(digest, buf[lo..lo + r.count]);
      }
    }

    lemma {:induction false} PlacesAreMarks(stream: seq<byte>)
      requires marks == FrameMarks(stream, start)
      ensures forall k :: Place(k) == PlaceOf(stream, start, k)
    {
      hide FrameMarks;
    }

    /** How the source under the reader stands. */
    lemma {:induction false} SourceStands()
      requires Valid()
      ensures inner.reader.Valid() && start == inner.start && raw == inner.reader.pos
      ensures forall k :: Place(k) == PlaceOf(inner.reader.stream, inner.start, k)
      ensures faults == inner.reader.faults && pending == |inner.reader.schedule|
      ensures raw <= next == inner.Feed().next && inner.PolledTo(inner.reader.Now())
      ensures faults != inner.begin.faults ==>
                faults == inner.begin.faults + 1 && failure.Some? && Blames(inner.begin.schedule, inner.reader.Now(), failure.value)
    {
      hide Frame.CheckingReader.Valid, Crc.Update, DecodeFrame;
    }

    /** Once something has been delivered, the reader has ended exactly when a whole valid payload is out. */
    lemma {:induction false} EndIsExact()
      requires Valid() && sound && at > 0
      ensures HasEnded() <==> verdict.Ended? && at == |data|
      ensures HasEnded() ==> inner.reader.pos == inner.Feed().next == raw == next
    {
      hide Frame.CheckingReader.Valid, Crc.Update, DecodeFrame;
      inner.EndIsExact();
    }

    /**
     `reader.read_exact(buf).await`: fills `buf[..length]`, polling again after every `Pending`.
     It gets exactly the next bytes, in order, unless the source fails or the payload is over.
     */
    method ReadExactly(buf: array<byte>, length: nat) returns (error: Option<IoError>)
      requires Valid() && sound && length <= buf.Length && buf !in Repr()
      modifies Repr(), buf
      ensures Valid() && since == old(since) && pending <= old(pending) && faults >= old(faults)
      ensures if error.None? then
                && sound && faults == old(faults)
                && at == old(at) + length && (old(Settled()) ==> Settled())
                && forall i :: 0 <= i < length ==> buf[i] == data[old(at) + i]
              else
                if faults > old(faults) then failure == error
                else old(at) + length > |data| && error.value == PastEnd(verdict) && raw == next
    {
      hide Valid;
      var future := new ReadExact(this, buf, length);
      var progress := future.Poll();
      while progress.Waiting?
        invariant future.Valid() && since == old(since) && pending <= old(pending) && faults >= old(faults)
        invariant match progress
                  case Waiting => sound && faults == old(faults) && future.filled < length
                  case Filled =>
                    && sound && faults == old(faults) && future.filled == length
                    && (if length > 0 then Settled() else raw == old(raw))
                  case GaveUp(e) =>
                    if faults > old(faults) then failure == Some(e)
                    else old(at) + length > |data| && e == PastEnd(verdict) && raw == next
        decreases pending, progress.Waiting?
      {
        progress := future.Poll();
      }
      error := if progress.Filled? then None else Some(progress.error);
    }
  }

  /** How far a future has come. */
  datatype Progress = Waiting | Filled | GaveUp(error: IoError)

  /** Filling a buffer, as a future that can be left alone between two polls. */
  class ReadExact {
    const reader: CheckingReader
    const buf: array<byte>
    const length: nat
    var filled: nat
    /** the position in the payload at which it began */
    ghost const from: nat

    constructor (reader: CheckingReader, buf: array<byte>, length: nat)
      requires reader.Valid() && length <= buf.Length && buf !in reader.Repr()
      ensures fresh(this) && Valid() && filled == 0
      ensures this.reader == reader && this.buf == buf && this.length == length && from == reader.at
    {
      this.reader, this.buf, this.length := reader, buf, length;
      filled, from := 0, reader.at;
    }

    /** Exactly the bytes taken from the reader so far are in place. */
    ghost predicate Valid()
      reads this, reader.Repr(), buf
    {
      && this !in reader.Repr() && buf !in reader.Repr()
      && reader.Valid()
      && filled <= length <= buf.Length
      && reader.at == from + filled
      && forall i :: 0 <= i < filled ==> buf[i] == reader.data[from + i]
    }

    /** One poll: goes on where the last one stopped, and stops at the first pause. */
    method Poll() returns (progress: Progress)
      requires Valid() && reader.sound
      modifies `filled, reader.Repr(), buf
      ensures Valid() && filled >= old(filled)
      ensures reader.since == old(reader.since) && reader.pending <= old(reader.pending) && reader.faults >= old(reader.faults)
      ensures match progress
              case Waiting =>
                reader.sound && reader.faults == old(reader.faults) && filled < length && reader.pending < old(reader.pending)
              case Filled =>
                && reader.sound && reader.faults == old(reader.faults) && filled == length
                && (if filled > old(filled) then reader.Settled() else reader.raw == old(reader.raw))
              case GaveUp(e) =>
                if reader.faults > old(reader.faults) then reader.failure == Some(e)
                else from + length > |reader.data| && e == PastEnd(reader.verdict) && reader.raw == reader.next
    {
      hide CheckingReader.Valid;
      while filled < length
        invariant Valid() && reader.sound && filled >= old(filled)
        invariant if filled > old(filled) then reader.Settled() else reader.raw == old(reader.raw)
        invariant reader.since == old(reader.since) && reader.pending <= old(reader.pending) && reader.faults == old(reader.faults)
        decreases length - filled
      {
        var p := reader.PollRead(buf, filled, length);
        match p
        case Pending => return Waiting;
        case Failed(e) => return GaveUp(e);
        case Ready(n) =>
          filled := filled + n;
          if n == 0 {
            return GaveUp(UnexpectedEof);
          }
      }
      progress := Filled;
    }
  }

  lemma {:induction false} NothingDigested(data: seq<byte>, at: nat)
    requires at <= |data|
    ensures Crc.Update(Crc.INIT, data[at..at]) == Crc.INIT
  {
    assert data[at..at] == [];
  }

  lemma {:induction false} DigestGrows(data: seq<byte>, since: nat, from: nat, at: nat)
    requires since <= from <= at <= |data|
    ensures Crc.Update(Crc.Update(Crc.INIT, data[since..from]), data[from..at]) == Crc.Update(Crc.INIT, data[since..at])
  {
    hide Crc.Update;
    Crc.UpdateConcat(Crc.INIT, data[since..from], data[from..at]);
    assert data[since..at] == data[since..from] + data[from..at];
  }

  lemma {:induction false} Elementwise(buf: array<byte>, lo: nat, n: nat, data: seq<byte>, at: nat)
    requires lo + n <= buf.Length && at + n <= |data|
    requires buf[lo..lo + n] == data[at..at + n]
    ensures forall i :: lo <= i < lo + n ==> buf[i] == data[at + (i - lo)]
  {
    forall i | lo <= i < lo + n
      ensures buf[i] == data[at + (i - lo)]
    {
      assert buf[lo..lo + n][i - lo] == data[at..at + n][i - lo];
    }
  }
}
