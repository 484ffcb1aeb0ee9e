/** From the wire to the callback: frames between noise, and the rounds of the run that receive them. */
module Delivery {
  import opened Bytes
  import opened Errors
  import opened Deframing
  import opened Callbacks
  import opened FrameRuns
  import opened Messages
  import opened Readings
  import opened ReadFrame
  import opened Sending
  import opened StartMarker
  import opened Spec = Cursors
  import opened Task

  /** Some noise and a frame with some messages, as they are sent one after the other. */
  datatype Sent = Sent(noise: seq<byte>, ms: seq<Draft>)

  /** Reading the noise, the automaton does not take a part of it for the second half of a marker. */
  predicate Clear(s: Sent) {
    Count(s.noise) <= 4 && s.ms != [] && AllSendable(s.ms)
  }

  function OnWire(s: Sent): seq<byte>
    requires Clear(s)
  {
    s.noise + START + FrameOf(EncodeMessages(s.ms))
  }

  /** The round receives the messages `ms`: they are heard and what they amount to is reported, unless the callback refuses one. */
  predicate Receives(b: Behaviour, r: Round, ms: seq<Draft>, end: nat) {
    match Tell(b, ms, r.before)
    case None => r.end == Some(End(false, None))
    case Some(after) =>
      && r.end == Some(End(true, Both(after.store)))
      && r.heard == |ms| && r.past == after.heard
      && r.to == end
  }

  /** It receives what was sent, from the noise on. */
  predicate Delivers(b: Behaviour, r: Round, s: Sent)
    requires Clear(s)
  {
    Receives(b, r, s.ms, r.from + |OnWire(s)|)
  }

  /** A frame with these messages and its marker stand at `q`. */
  predicate FrameAt(stream: seq<byte>, q: nat, ms: seq<Draft>) {
    ms != [] && AllSendable(ms) && At(stream, q, START + FrameOf(EncodeMessages(ms)))
  }

  predicate ReceivesFrame(b: Behaviour, r: Round, q: nat, ms: seq<Draft>) {
    AllSendable(ms) && Receives(b, r, ms, q + |START + FrameOf(EncodeMessages(ms))|)
  }

  /** The marker after the noise is the one at which the search ends. */
  lemma {:induction false} MarkerFound(stream: seq<byte>, from: nat, noise: seq<byte>, start: nat)
    requires At(stream, from, noise + START) && Count(noise) <= 4
    requires from <= start <= |stream| && StopsAfter(stream[from..start])
    ensures start == from + |noise + START|
  {
    hide Count, StopsAfter;
    SecondHalfCount(noise);
    MarkerCaught(noise);
    var marked := from + |noise + START|;
    if start <= marked {
      assert stream[from..marked][..start - from] == stream[from..start];
      StopsOnce(stream[from..marked], start - from);
    } else {
      assert stream[from..start][..marked - from] == stream[from..marked];
      StopsOnce(stream[from..start], marked - from);
    }
  }

  /**
   The search ends with a certain marker exactly if it does not end before, and what comes
   before the marker does not lead into the second half of another one.
   */
  lemma {:induction false} MarkerReached(stream: seq<byte>, from: nat, q: nat, start: nat)
    requires from <= q && At(stream, q, START)
    requires from <= start <= |stream| && StopsAfter(stream[from..start])
    ensures start == q + 8 <==> Count(stream[from..q]) <= 4
  {
    hide Count;
    var noise := stream[from..q];
    AtParts(stream, from, noise, START);
    if Count(noise) <= 4 {
      MarkerFound(stream, from, noise, start);
    }
    if start == q + 8 {
      var bs := stream[from..start];
      AcceptsExactly(bs);
      assert bs[..|bs| - 8] == noise;
    }
  }

  /**
   A frame anywhere in the stream, whatever comes before it: a round that begins before its
   marker and is not disturbed by the source begins to read there exactly if the bytes in
   between do not lead into the second half of a marker, and then receives the frame.
   */
  lemma {:induction false} FrameReceived(b: Behaviour, stream: seq<byte>, r: Round, q: nat, ms: seq<Draft>)
    requires FrameAt(stream, q, ms)
    requires Faithful(b, stream, r) && Smooth(r) && r.from <= q
    ensures r.start == q + 8 <==> Count(stream[r.from..q]) <= 4
    ensures r.start == q + 8 ==> ReceivesFrame(b, r, q, ms)
  {
    hide Count, StopsAfter, FrameOf, EncodeMessages, DecodeFrame, Tell, Both, Halts, Interrupted, AcceptPayload;
    AtParts(stream, q, START, FrameOf(EncodeMessages(ms)));
    MarkerReached(stream, r.from, q, r.start);
    if r.start == q + 8 {
      FrameDelivered(b, stream, r.start, ms, r.before);
    }
  }

  /**
   From the raw stream through the start marker to the callback: where noise and a frame
   follow, a round that is not disturbed by the source receives exactly that frame.
   */
  lemma {:induction false} RoundDelivers(b: Behaviour, stream: seq<byte>, r: Round, s: Sent)
    requires Clear(s) && At(stream, r.from, OnWire(s))
    requires Faithful(b, stream, r) && Smooth(r)
    ensures Delivers(b, r, s)
  {
    hide Count, FrameOf, EncodeMessages, Faithful, Receives;
    var frame, q := FrameOf(EncodeMessages(s.ms)), r.from + |s.noise|;
    assert OnWire(s) == s.noise + (START + frame);
    AtParts(stream, r.from, s.noise, START + frame);
    assert stream[r.from..q] == s.noise;
    FrameReceived(b, stream, r, q, s.ms);
  }

  /** Round `k` begins before a marker at `q`, and what is in between does not lead into the second half of a marker. */
  predicate Reaches(stream: seq<byte>, rounds: seq<Round>, k: nat, q: nat) {
    k < |rounds| && rounds[k].from <= q <= |stream| && Count(stream[rounds[k].from..q]) <= 4
  }

  /**
   In a run over any stream, with valid frames, broken ones and noise in any order, these are
   the frames received: the ones whose marker is reached by a round from where it begins,
   which is where the round before has ended, well or not.
   */
  lemma {:induction false} ReceivedExactly(b: Behaviour, stream: seq<byte>, rounds: seq<Round>, q: nat, ms: seq<Draft>)
    requires FrameAt(stream, q, ms)
    requires Fed(stream, rounds) && forall i :: 0 <= i < |rounds| ==> Faithful(b, stream, rounds[i])
    ensures forall k :: 0 <= k < |rounds| ==> (rounds[k].start == q + 8 <==> Reaches(stream, rounds, k, q))
    ensures forall k: nat :: Reaches(stream, rounds, k, q) ==> Smooth(rounds[k]) && ReceivesFrame(b, rounds[k], q, ms)
  {
    hide Count, StopsAfter, FrameOf, EncodeMessages, Faithful, ReceivesFrame;
    AtParts(stream, q, START, FrameOf(EncodeMessages(ms)));
    forall k | 0 <= k < |rounds|
      ensures rounds[k].start == q + 8 <==> Reaches(stream, rounds, k, q)
      ensures Reaches(stream, rounds, k, q) ==> Smooth(rounds[k]) && ReceivesFrame(b, rounds[k], q, ms)
    {
      FaithfulStops(b, stream, rounds[k]);
      MarkerOfStop(stream, rounds[k].from, rounds[k].start);
      if rounds[k].from <= q {
        MarkerReached(stream, rounds[k].from, q, rounds[k].start);
      }
      if Reaches(stream, rounds, k, q) {
        NotStarved(b, stream, rounds[k], q, ms);
        FrameReceived(b, stream, rounds[k], q, ms);
      }
    }
  }

  lemma {:induction false} FaithfulStops(b: Behaviour, stream: seq<byte>, r: Round)
    requires Faithful(b, stream, r)
    ensures r.from <= r.start <= |stream| && StopsAfter(stream[r.from..r.start])
    ensures r.end.None? ==> r.faulty
  {
    hide DecodeFrame, Halts, Interrupted, AcceptPayload, StopsAfter;
  }

  lemma {:induction false} MarkerOfStop(stream: seq<byte>, from: nat, start: nat)
    requires from <= start <= |stream| && StopsAfter(stream[from..start])
    ensures from + 8 <= start
  {
    hide Count;
    AcceptsExactly(stream[from..start]);
  }

  lemma {:induction false} NotStarved(b: Behaviour, stream: seq<byte>, r: Round, q: nat, ms: seq<Draft>)
    requires FrameAt(stream, q, ms) && r.start == q + 8
    ensures DecodeFrame(stream, r.start).verdict.Ended?
  {
    hide FrameOf, EncodeMessages, DecodeFrame, Tell, AcceptPayload;
    AtParts(stream, q, START, FrameOf(EncodeMessages(ms)));
    FrameDelivered(b, stream, r.start, ms, r.before);
  }

  // -------------------------------------------------------- frames broken off

  /**
   A frame breaks off between two blocks, and the next marker follows at once. The frame is
   refused, and the next round finds that marker exactly if reading has given up on the
   messages before, and what is left of the frame does not hide the marker: otherwise the
   frame has swallowed it, as always if it breaks off within its first two blocks.
   */
  lemma {:induction false} MarkerAfterBrokenOff(b: Behaviour, stream: seq<byte>, r: Round, next: Round, blocks: seq<Block>)
    requires Faithful(b, stream, r) && Smooth(r) && At(stream, r.start, Stuff(blocks) + START)
    requires Faithful(b, stream, next) && next.from == r.to
    ensures var q := r.start + |Stuff(blocks)|;
            var halt := HaltOf(b, Released([], blocks), Broken(Unimplemented), r.before);
            && r.end == Some(End(false, None))
            && (if halt.at.None? then r.to == q + 8 else r.to <= q)
            && (next.start == q + 8 <==> halt.at.Some? && Count(stream[r.to..q]) <= 4)
            && (|blocks| <= 1 ==> halt.at.None?)
  {
    hide Count, StopsAfter, Stuff, DecodeFrame, Released, HaltOf, Interrupted, FrameMarks, AcceptPayload;
    var q := r.start + |Stuff(blocks)|;
    BrokenOff(stream, r.start, blocks);
    BrokenOffPlaces(stream, r.start, HaltOf(b, Released([], blocks), Broken(Unimplemented), r.before).at);
    AtParts(stream, r.start, Stuff(blocks), START);
    MarkerOfStop(stream, next.from, next.start);
    if r.to <= q {
      MarkerReached(stream, r.to, q, next.start);
    }
    if |blocks| <= 1 {
      NothingReleased(blocks);
      NothingToRead(b, r.before);
    }
  }

  lemma {:induction false} BrokenOffPlaces(stream: seq<byte>, p: nat, at: Option<nat>)
    requires p <= |stream| && DecodeFrame(stream, p).verdict.Broken?
    ensures at.Some? ==> PlaceOf(stream, p, at.value) <= DecodeFrame(stream, p).next - 8
  {
    hide Decode, Marks, StartRegister;
    MarksOfBroken(stream, p, StartRegister(), false, []);
    var marks := FrameMarks(stream, p);
    hide FrameMarks, DecodeFrame;
    if at.Some? && 0 < at.value <= |marks| {
      assert marks[at.value - 1] in marks;
    }
  }

  lemma {:induction false} NothingReleased(blocks: seq<Block>)
    requires |blocks| <= 1
    ensures Released([], blocks) == []
  {
    if blocks != [] {
      assert blocks[..|blocks| - 1] == [];
    }
  }

  lemma {:induction false} NothingToRead(b: Behaviour, st: State)
    requires Sensible(b)
    ensures HaltOf(b, [], Broken(Unimplemented), st).at.None?
  {
    hide HandStep, TailStep, HeardThen, ElementOf;
    assert HeadStep([], Outside(0, 0)).DataOver?;
    RunFirst(b, [], Broken(Unimplemented), Outside(0, 0), st, 0, 1);
  }

  // ------------------------------------------------------ many frames in turn

  predicate AllClear(sent: seq<Sent>) {
    forall i :: 0 <= i < |sent| ==> Clear(sent[i])
  }

  function Wire(sent: seq<Sent>): seq<byte>
    requires AllClear(sent)
  {
    if sent == [] then [] else Wire(sent[..|sent| - 1]) + OnWire(sent[|sent| - 1])
  }

  /** The round has ended, the source has not failed in it, and the callback has accepted what was sent. */
  predicate Undisturbed(b: Behaviour, r: Round, s: Sent) {
    Smooth(r) && Tell(b, s.ms, r.before).Some?
  }

  /**
   Every undisturbed run over frames between noise receives these frames, one round for each,
   in order and without missing one.
   */
  lemma {:induction false} RunDelivers(b: Behaviour, stream: seq<byte>, from: nat, past: Past,
      rounds: seq<Round>, sent: seq<Sent>)
    requires AllClear(sent) && |rounds| == |sent| && At(stream, from, Wire(sent))
    requires Chained(rounds, from, past)
    requires forall i :: 0 <= i < |rounds| ==> Faithful(b, stream, rounds[i]) && Undisturbed(b, rounds[i], sent[i])
    ensures forall i :: 0 <= i < |rounds| ==> Delivers(b, rounds[i], sent[i])
    ensures Reached(rounds, from) == from + |Wire(sent)|
    decreases |rounds|
  {
    hide Faithful, OnWire, Tell, Clear, At, Receives;
    if rounds != [] {
      var n := |rounds| - 1;
      AtParts(stream, from, Wire(sent[..n]), OnWire(sent[n]));
      RunDelivers(b, stream, from, past, rounds[..n], sent[..n]);
      assert rounds[n].from == Reached(rounds[..n], from);
      RoundDelivers(b, stream, rounds[n], sent[n]);
      AcceptedTo(b, rounds[n], sent[n]);
      forall i | 0 <= i < |rounds|
        ensures Delivers(b, rounds[i], sent[i])
      {
        if i < n {
          assert rounds[..n][i] == rounds[i] && sent[..n][i] == sent[i];
        }
      }
    }
  }

  lemma {:induction false} AcceptedTo(b: Behaviour, r: Round, s: Sent)
    requires Clear(s) && Delivers(b, r, s) && Tell(b, s.ms, r.before).Some?
    ensures r.to == r.from + |OnWire(s)|
  {
    hide Tell;
  }

  /** The callback, remembering `past`, accepts all that is sent. */
  predicate Welcome(b: Behaviour, sent: seq<Sent>, past: Past) {
    sent == []
    || (var earlier, last := sent[..|sent| - 1], sent[|sent| - 1];
        Welcome(b, earlier, past) && Tell(b, last.ms, State(EMPTY, PastAfter(b, earlier, past))).Some?)
  }

  function PastAfter(b: Behaviour, sent: seq<Sent>, past: Past): Past {
    if sent == [] then past
    else
      var earlier, last := sent[..|sent| - 1], sent[|sent| - 1];
      var before := PastAfter(b, earlier, past);
      match Tell(b, last.ms, State(EMPTY, before))
      case None => before
      case Some(after) => after.heard
  }

  /** The first rounds of the run have received all that was sent. */
  predicate AllReceived(b: Behaviour, rounds: seq<Round>, sent: seq<Sent>, from: nat, past: Past)
    requires AllClear(sent)
  {
    && |sent| <= |rounds|
    && (forall i :: 0 <= i < |sent| ==> Delivers(b, rounds[i], sent[i]) && rounds[i].end.Some? && rounds[i].end.value.valid)
    && Reached(rounds[..|sent|], from) == from + |Wire(sent)|
    && Remembered(rounds[..|sent|], past) == PastAfter(b, sent, past)
  }

  /**
   Every run that goes through the whole stream receives all frames sent between noise, one
   round for each, in order and without missing one, if the callback accepts them.
   */
  lemma {:induction false} AllDelivered(b: Behaviour, stream: seq<byte>, from: nat, past: Past,
      rounds: seq<Round>, sent: seq<Sent>)
    requires AllClear(sent) && At(stream, from, Wire(sent)) && Welcome(b, sent, past)
    requires Chained(rounds, from, past) && Exhausted(stream, rounds, from)
    requires forall i :: 0 <= i < |rounds| ==> Faithful(b, stream, rounds[i])
    ensures AllReceived(b, rounds, sent, from, past)
    decreases |sent|
  {
    hide Faithful, OnWire, Tell, Clear, At, Chained, Exhausted, Delivers;
    if sent == [] {
      assert rounds[..0] == [];
    } else {
      var n := |sent| - 1;
      AtParts(stream, from, Wire(sent[..n]), OnWire(sent[n]));
      AllDelivered(b, stream, from, past, rounds, sent[..n]);
      forall i | 0 <= i < n
        ensures Delivers(b, rounds[i], sent[i]) && rounds[i].end.Some? && rounds[i].end.value.valid
      {
        assert sent[..n][i] == sent[i];
      }
      MoreRounds(stream, from, rounds, n, sent[n]);
      ChainedAt(rounds, from, past, n);
      NextDelivered(b, stream, from, rounds, n, sent[n]);
      assert rounds[..n + 1][..n] == rounds[..n];
    }
  }

  /** A run does not end before a marker that it would find. */
  lemma {:induction false} MoreRounds(stream: seq<byte>, from: nat, rounds: seq<Round>, n: nat, s: Sent)
    requires n <= |rounds| && Clear(s) && At(stream, Reached(rounds[..n], from), OnWire(s))
    requires forall i :: 0 <= i < n ==> rounds[i].end.Some?
    requires Exhausted(stream, rounds, from)
    ensures n < |rounds|
  {
    hide Count, FrameOf, EncodeMessages, Reached, Fed;
    if n == |rounds| {
      assert rounds[..n] == rounds;
      var p, k := Reached(rounds, from), |s.noise + START|;
      AtParts(stream, p, s.noise + START, FrameOf(EncodeMessages(s.ms)));
      assert stream[p..][..k] == s.noise + START;
      SecondHalfCount(s.noise);
      MarkerCaught(s.noise);
      assert stream[p..][..|stream| - p] == stream[p..];
      StaysStopped(stream[p..], k, |stream| - p);
    }
  }

  /** Where a round begins and what the callback remembers then. */
  lemma {:induction false} ChainedAt(rounds: seq<Round>, from: nat, past: Past, k: nat)
    requires Chained(rounds, from, past) && k < |rounds|
    ensures rounds[k].from == Reached(rounds[..k], from)
    ensures rounds[k].before == State(EMPTY, Remembered(rounds[..k], past))
    decreases |rounds|
  {
    var n := |rounds| - 1;
    if k < n {
      ChainedAt(rounds[..n], from, past, k);
      assert rounds[..n][..k] == rounds[..k] && rounds[..n][k] == rounds[k];
    }
  }

  lemma {:induction false} NextDelivered(b: Behaviour, stream: seq<byte>, from: nat, rounds: seq<Round>, n: nat, s: Sent)
    requires n < |rounds| && Clear(s) && rounds[n].from == Reached(rounds[..n], from)
    requires At(stream, rounds[n].from, OnWire(s)) && Faithful(b, stream, rounds[n]) && Exhausted(stream, rounds, from)
    requires Tell(b, s.ms, rounds[n].before).Some?
    ensures var r := rounds[n];
            && Delivers(b, r, s) && r.end.Some? && r.end.value.valid
            && r.to == r.from + |OnWire(s)| && r.past == Tell(b, s.ms, r.before).value.heard
  {
    hide Count, StopsAfter, FrameOf, EncodeMessages, DecodeFrame, Tell, Both, Halts, Interrupted, AcceptPayload;
    var r, frame := rounds[n], FrameOf(EncodeMessages(s.ms));
    AtParts(stream, r.from, s.noise + START, frame);
    MarkerFound(stream, r.from, s.noise, r.start);
    FrameDelivered(b, stream, r.start, s.ms, r.before);
    RoundDelivers(b, stream, r, s);
  }
}
