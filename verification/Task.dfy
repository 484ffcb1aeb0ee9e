/** The endless loop over frames, and what it tells the callback. */
module Task {
  import opened Bytes
  import opened Errors
  import opened Spec = Cursors
  import opened Io
  import opened Readings
  import opened Callbacks
  import opened Messages
  import opened FrameRuns
  import opened Receiver = ReadFrame
  import Deframing
  import StartMarker

  /** How a frame was finished. */
  datatype End = End(valid: bool, report: Option<(Reading, Reading)>)

  /**
   One round of the loop: it waits for a start marker from stream position `from` on, reads
   a frame from `start` to `to`, in which the callback, remembering `before`, gets `heard`
   messages, and has observed `past` in all messages then. The source failed on the way if
   `faulty`; without an end the run is cut off.
   */
  datatype Round = Round(from: nat, start: nat, to: nat, before: State, heard: nat, past: Past,
    faulty: bool, end: Option<End>)

  function Calls(r: Round): seq<Call> {
    [FrameStart] + Copies(MessageReceived, r.heard)
    + match r.end
      case None => []
      case Some(End(valid, report)) => [FrameFinished(valid, report)]
  }

  /** All calls to the callback in a run. */
  function Log(rounds: seq<Round>): seq<Call> {
    if rounds == [] then [] else Log(rounds[..|rounds| - 1]) + Calls(rounds[|rounds| - 1])
  }

  /** Nothing behind the frame is read; if the source has failed, the callback got a beginning of the frame's messages. */
  ghost predicate Interrupted(b: Behaviour, stream: seq<byte>, r: Round)
    requires Sensible(b)
  {
    var feed := Deframing.DecodeFrame(stream, r.start);
    && r.to <= feed.next
    && (r.faulty ==> Begins(b, feed.data, feed.verdict, r.before, r.heard, r.past))
    && (r.faulty && !feed.verdict.Starved? ==> r.to < feed.next)
  }

  /**
   The frame begins after a start marker, and with nothing collected. If the round ends, the
   frame is called valid exactly when it is, unless the source has failed. A report is what
   was collected in this frame, and only of a valid frame. Nothing behind the frame is read,
   and unless the source has failed, how many messages the callback gets and how far the
   stream is read depend on nothing but the stream, the callback and what it remembers. If it
   has failed, then before the end of the frame, and the callback got a beginning of that.
   */
  ghost predicate Faithful(b: Behaviour, stream: seq<byte>, r: Round) {
    && r.from <= r.start <= |stream| && r.start <= r.to
    && StartMarker.StopsAfter(stream[r.from..r.start])
    && Sensible(b) && r.before.store == EMPTY
    && var feed := Deframing.DecodeFrame(stream, r.start);
    && Interrupted(b, stream, r)
    && var accepted := AcceptPayload(b, feed.data, r.before);
    && match r.end
       case None => r.faulty
       case Some(End(valid, report)) =>
         && (!r.faulty ==> (valid <==> feed.verdict.Ended? && accepted.Some?))
         && (!r.faulty ==> Halts(b, stream, r.start, r.before, valid, r.heard, r.to, r.past))
         && (if valid then
               && !r.faulty && feed.verdict.Ended? && accepted.Some?
               && r.heard == accepted.value.0 && r.to == feed.next && r.past == accepted.value.1.heard
               && report == Both(accepted.value.1.store)
             else report.None?)
  }

  /** Where the rounds leave the stream. */
  function Reached(rounds: seq<Round>, from: nat): nat {
    if rounds == [] then from else rounds[|rounds| - 1].to
  }

  /** In how many of them the source has failed. */
  function Faults(rounds: seq<Round>): nat {
    if rounds == [] then 0 else Faults(rounds[..|rounds| - 1]) + if rounds[|rounds| - 1].faulty then 1 else 0
  }

  predicate AllEnded(rounds: seq<Round>) {
    forall i :: 0 <= i < |rounds| ==> rounds[i].end.Some?
  }

  /** What the callback has observed when the rounds are over. */
  function Remembered(rounds: seq<Round>, past: Past): Past {
    if rounds == [] then past else rounds[|rounds| - 1].past
  }

  /** The rounds follow one another, in the stream and in the callback, and only the last one can be cut off. */
  predicate Chained(rounds: seq<Round>, from: nat, past: Past) {
    rounds == []
    || (var earlier, last := rounds[..|rounds| - 1], rounds[|rounds| - 1];
        && Chained(earlier, from, past) && AllEnded(earlier)
        && last.from == Reached(earlier, from) && last.before == State(EMPTY, Remembered(earlier, past)))
  }

  /** The source has failed only where the stream ends within a frame. */
  ghost predicate Fed(stream: seq<byte>, rounds: seq<Round>) {
    forall i :: 0 <= i < |rounds| && rounds[i].faulty ==> Deframing.DecodeFrame(stream, rounds[i].start).verdict.Starved?
  }

  /** The run has gone through the whole stream. */
  ghost predicate Exhausted(stream: seq<byte>, rounds: seq<Round>, from: nat) {
    && Fed(stream, rounds)
    && (AllEnded(rounds) ==>
          var last := Reached(rounds, from);
          last <= |stream| && StartMarker.Count(stream[last..]) < 8)
  }

  /**
   One frame, once its start marker has been found. It comes to an end in any case, even if the
   driver reports a fault, unless the run is cut off.
   */
  method ReadRound(reader: Source, callback: Callback, ghost from: nat) returns (ended: bool, ghost round: Round)
    requires reader.Valid() && Sensible(callback.behaviour)
    requires from <= reader.pos && StartMarker.StopsAfter(reader.stream[from..reader.pos])
    modifies reader, callback
    ensures reader.Valid() && |reader.schedule| <= old(|reader.schedule|) && reader.faults >= old(reader.faults)
    ensures Leads(|reader.stream|, old(reader.Now()), reader.Now())
    ensures round.from == from && round.start == old(reader.pos) && round.to == reader.pos
    ensures round.before == State(EMPTY, old(callback.heard)) && round.past == callback.heard
    ensures callback.events == old(callback.events) + Calls(round)
    ensures Faithful(callback.behaviour, reader.stream, round)
    ensures ended <==> round.end.Some?
    ensures ended <==> !(round.faulty && reader.cut)
    ensures reader.faults == old(reader.faults) + if round.faulty then 1 else 0
    ensures var feed := Deframing.DecodeFrame(reader.stream, round.start);
            Enough(old(reader.schedule), feed.next - round.start) && round.faulty ==> feed.verdict.Starved?
  {
    hide Begins, Leads, Enough, Halts, Deframing.DecodeFrame, AcceptPayload, StartMarker.StopsAfter, Faithful, Copies, Both;
    var faults := reader.faults;
    callback.OnFrameStart();
    ghost var start, before := reader.pos, callback.Memory();
    ghost var heard;
    var r;
    r, heard := Receiver.ReadFrame(reader, callback);
    round := Round(from, start, reader.pos, before, heard, callback.heard, reader.faults > faults, None);
    ended := !(r == Err(Io(Cut)) && reader.faults > faults);
    if ended {
      RoundIsFaithful(callback.behaviour, reader.stream, round, r.Ok?, callback.Memory());
      round := round.(end := Some(End(r.Ok?, if r.Ok? then Both(callback.Found()) else None)));
      callback.OnFrameFinished(r.Ok?);
    } else {
      CutOffIsFaithful(callback.behaviour, reader.stream, round);
    }
  }

  /**
   Waits for frames and reads them until the source fails between two frames, or the run is
   cut off. The callback is called in the order that `Log` gives, and every round is faithful
   to the stream. It ends with the first failure between two frames, whose error is returned,
   or where it is cut off; a failure within a frame only ends that frame. If the driver reports
   no fault and answers often enough, the run goes through the whole stream.
   */
  method Task(reader: Source, callback: Callback) returns (error: IoError, ghost rounds: seq<Round>)
    requires reader.Valid() && Sensible(callback.behaviour)
    modifies reader, callback
    ensures reader.Valid()
    ensures callback.events == old(callback.events) + Log(rounds)
    ensures Chained(rounds, old(reader.pos), old(callback.heard))
    ensures forall i :: 0 <= i < |rounds| ==> Faithful(callback.behaviour, reader.stream, rounds[i])
    ensures AllEnded(rounds) ==>
              var last := Reached(rounds, old(reader.pos));
              last <= reader.pos && StartMarker.Count(reader.stream[last..reader.pos]) < 8
    ensures Leads(|reader.stream|, old(reader.Now()), reader.Now())
    ensures Blames(old(reader.schedule), reader.Now(), error) && (!AllEnded(rounds) ==> reader.cut)
    ensures reader.faults == old(reader.faults) + Faults(rounds) + if AllEnded(rounds) then 1 else 0
    ensures Enough(old(reader.schedule), |reader.stream| - old(reader.pos)) ==>
              reader.pos == |reader.stream| && Exhausted(reader.stream, rounds, old(reader.pos))
  {
    hide Leads, Blames, Enough, Exhausted, Fed, Deframing.DecodeFrame, StartMarker.StopsAfter, Faithful, Log, Calls, Chained;
    rounds := [];
    RunBegins(reader.stream, reader.Now(), callback.heard);
    while true
      invariant reader.Valid() && Reached(rounds, old(reader.pos)) == reader.pos
      invariant reader.faults == old(reader.faults) + Faults(rounds)
      invariant callback.events == old(callback.events) + Log(rounds)
      invariant Chained(rounds, old(reader.pos), old(callback.heard)) && AllEnded(rounds)
      invariant Remembered(rounds, old(callback.heard)) == callback.heard
      invariant forall i :: 0 <= i < |rounds| ==> Faithful(callback.behaviour, reader.stream, rounds[i])
      invariant Leads(|reader.stream|, old(reader.Now()), reader.Now())
      invariant Enough(old(reader.schedule), |reader.stream| - old(reader.pos)) ==> Fed(reader.stream, rounds)
      decreases |reader.schedule|
    {
      ghost var from, now := reader.pos, reader.Now();
      var failed := StartMarker.WaitForStartSequence(reader);
      LeadsOn(|reader.stream|, old(reader.Now()), now, reader.Now());
      if failed.Some? {
        error := failed.value;
        BlamesEarlier(|reader.stream|, old(reader.Now()), now, reader.Now(), error);
        break;
      }
      now := reader.Now();
      FedOn(reader.stream, old(reader.Now()), now);
      ghost var round;
      var ended;
      ended, round := ReadRound(reader, callback, from);
      LeadsOn(|reader.stream|, old(reader.Now()), now, reader.Now());
      RoundAdded(rounds, round, old(reader.pos), old(callback.heard));
      FedMore(reader.stream, rounds, round);
      rounds := rounds + [round];
      if !ended {
        assert rounds[|rounds| - 1].end.None?;
        error := Cut;
        CutIsBlamed(old(reader.schedule), reader.Now());
        break;
      }
    }
    WholeStream(reader.stream, rounds, old(reader.Now()), reader.Now());
  }

  lemma {:induction false} CutIsBlamed(plan: seq<Answer>, now: Standing)
    requires now.cut && now.schedule == []
    ensures Blames(plan, now, Cut)
  {
  }

  lemma {:induction false} FedMore(stream: seq<byte>, rounds: seq<Round>, round: Round)
    ensures Fed(stream, rounds) && (round.faulty ==> Deframing.DecodeFrame(stream, round.start).verdict.Starved?)
            ==> Fed(stream, rounds + [round])
  {
    hide Deframing.DecodeFrame;
  }

  lemma {:induction false} FedOn(stream: seq<byte>, a: Standing, b: Standing)
    requires Leads(|stream|, a, b) && b.pos <= |stream|
    ensures Enough(a.schedule, |stream| - a.pos) ==>
              Enough(b.schedule, Deframing.DecodeFrame(stream, b.pos).next - b.pos)
  {
    hide Leads, Gifts, HasFault, Deframing.DecodeFrame;
    if Enough(a.schedule, |stream| - a.pos) {
      EnoughStays(|stream|, a, b);
    }
  }

  lemma {:induction false} WholeStream(stream: seq<byte>, rounds: seq<Round>, a: Standing, b: Standing)
    requires Leads(|stream|, a, b) && b.faults > a.faults && b.pos <= |stream|
    requires AllEnded(rounds) ==>
               Reached(rounds, a.pos) <= b.pos && StartMarker.Count(stream[Reached(rounds, a.pos)..b.pos]) < 8
    ensures Enough(a.schedule, |stream| - a.pos) ==>
              b.pos == |stream| && (Fed(stream, rounds) ==> Exhausted(stream, rounds, a.pos))
  {
    hide Leads, Enough, Fed, Reached, AllEnded, StartMarker.Count;
    if Enough(a.schedule, |stream| - a.pos) {
      EnoughReads(|stream|, a, b, |stream|);
      if AllEnded(rounds) {
        assert stream[Reached(rounds, a.pos)..b.pos] == stream[Reached(rounds, a.pos)..];
      }
    }
  }

  lemma {:induction false} RunBegins(stream: seq<byte>, now: Standing, past: Past)
    ensures Log([]) == [] && Faults([]) == 0 && Chained([], now.pos, past) && Fed(stream, []) && Leads(|stream|, now, now)
  {
    LeadsNowhere(|stream|, now);
  }

  lemma {:induction false} RoundAdded(rounds: seq<Round>, r: Round, from: nat, past: Past)
    requires Chained(rounds, from, past) && AllEnded(rounds)
    requires r.from == Reached(rounds, from) && r.before == State(EMPTY, Remembered(rounds, past))
    ensures Log(rounds + [r]) == Log(rounds) + Calls(r)
    ensures Faults(rounds + [r]) == Faults(rounds) + if r.faulty then 1 else 0
    ensures Chained(rounds + [r], from, past)
  {
    assert (rounds + [r])[..|rounds|] == rounds;
  }

  lemma {:induction false} CutOffIsFaithful(b: Behaviour, stream: seq<byte>, r: Round)
    requires r.from <= r.start <= |stream| && r.start <= r.to && StartMarker.StopsAfter(stream[r.from..r.start])
    requires Sensible(b) && r.before.store == EMPTY && r.end.None? && Interrupted(b, stream, r) && r.faulty
    ensures Faithful(b, stream, r)
  {
    hide Interrupted, Halts, Deframing.DecodeFrame, AcceptPayload, StartMarker.StopsAfter;
  }

  lemma {:induction false} RoundIsFaithful(b: Behaviour, stream: seq<byte>, r: Round, valid: bool, after: State)
    requires r.from <= r.start <= |stream| && r.start <= r.to && StartMarker.StopsAfter(stream[r.from..r.start])
    requires Sensible(b) && r.before.store == EMPTY && Interrupted(b, stream, r)
    requires !r.faulty ==> Halts(b, stream, r.start, r.before, valid, r.heard, r.to, r.past)
    requires var feed := Deframing.DecodeFrame(stream, r.start);
             var accepted := AcceptPayload(b, feed.data, r.before);
             && (valid ==> !r.faulty && feed.verdict.Ended? && r.to == feed.next && accepted == Some((r.heard, after)) && r.past == after.heard)
             && (!r.faulty ==> (valid <==> feed.verdict.Ended? && accepted.Some?))
    ensures Faithful(b, stream, r.(end := Some(End(valid, if valid then Both(after.store) else None))))
  {
    hide Begins, Halts, Deframing.DecodeFrame, AcceptPayload, StartMarker.StopsAfter, Both;
  }

  // ------------------------------------------------- the order of the calls

  /** What a listener expects next: the start of a frame, or more of one. Otherwise it has seen a wrong call. */
  datatype Phase = BetweenFrames | InFrame | Confused

  function Hear(phase: Phase, e: Call): Phase {
    match (phase, e)
    case (BetweenFrames, FrameStart) => InFrame
    case (InFrame, MessageReceived) => InFrame
    case (InFrame, FrameFinished(valid, report)) => if report.Some? && !valid then Confused else BetweenFrames
    case _ => Confused
  }

  function HearAll(phase: Phase, events: seq<Call>): Phase
    decreases |events|
  {
    if events == [] then phase else HearAll(Hear(phase, events[0]), events[1..])
  }

  lemma {:induction false} HearInTurn(phase: Phase, a: seq<Call>, b: seq<Call>)
    ensures HearAll(phase, a + b) == HearAll(HearAll(phase, a), b)
    decreases |a|
  {
    if a == [] {
      assert a + b == b;
    } else {
      assert (a + b)[1..] == a[1..] + b;
      HearInTurn(Hear(phase, a[0]), a[1..], b);
    }
  }

  lemma {:induction false} HearMessages(n: nat)
    ensures HearAll(InFrame, Copies(MessageReceived, n)) == InFrame
  {
    if n > 0 {
      HearMessages(n - 1);
      HearInTurn(InFrame, Copies(MessageReceived, n - 1), [MessageReceived]);
    }
  }

  lemma {:induction false} HearRound(b: Behaviour, stream: seq<byte>, r: Round)
    requires Faithful(b, stream, r)
    ensures HearAll(BetweenFrames, Calls(r)) == if r.end.Some? then BetweenFrames else InFrame
  {
    hide Interrupted, Halts, Deframing.DecodeFrame, AcceptPayload, StartMarker.StopsAfter, Copies, HearAll;
    var messages, end := Copies(MessageReceived, r.heard), if r.end.Some? then [FrameFinished(r.end.value.valid, r.end.value.report)] else [];
    HearMessages(r.heard);
    HearInTurn(BetweenFrames, [FrameStart] + messages, end);
    HearInTurn(BetweenFrames, [FrameStart], messages);
    HearOne(BetweenFrames, FrameStart);
    if r.end.Some? {
      HearOne(InFrame, FrameFinished(r.end.value.valid, r.end.value.report));
    } else {
      HearNothing(InFrame);
    }
  }

  lemma {:induction false} HearOne(phase: Phase, e: Call)
    ensures HearAll(phase, [e]) == Hear(phase, e)
  {
    assert [e][1..] == [];
  }

  lemma {:induction false} HearNothing(phase: Phase)
    ensures HearAll(phase, []) == phase
  {
  }

  /**
   In every run, the callback is called in the cyclic order start of frame, messages, end of
   frame, with a report at an end only, and only of a valid frame. The run may be cut off
   inside its last frame.
   */
  lemma {:induction false} CallsInOrder(b: Behaviour, stream: seq<byte>, rounds: seq<Round>, from: nat,
      past: Past)
    requires Chained(rounds, from, past) && forall i :: 0 <= i < |rounds| ==> Faithful(b, stream, rounds[i])
    ensures HearAll(BetweenFrames, Log(rounds)) == if AllEnded(rounds) then BetweenFrames else InFrame
    decreases |rounds|
  {
    hide Faithful, Calls, HearAll;
    if rounds == [] {
      HearNothing(BetweenFrames);
    } else {
      var earlier, last := rounds[..|rounds| - 1], rounds[|rounds| - 1];
      CallsInOrder(b, stream, earlier, from, past);
      HearInTurn(BetweenFrames, Log(earlier), Calls(last));
      HearRound(b, stream, last);
      assert rounds == earlier + [last];
    }
  }

  // --------------------------------------------- the schedule does not matter

  /** The round has ended, and the source has not failed in it. */
  predicate Smooth(r: Round) {
    r.end.Some? && !r.faulty
  }

  /** There is only one smooth round from a position on, for a callback with a certain memory. */
  lemma {:induction false} SameRound(b: Behaviour, stream: seq<byte>, r: Round, q: Round)
    requires Faithful(b, stream, r) && Faithful(b, stream, q) && Smooth(r) && Smooth(q)
    requires r.from == q.from && r.before == q.before
    ensures r == q
  {
    hide Deframing.DecodeFrame, AcceptPayload, StartMarker.StopsAfter, HaltOf, Deframing.PlaceOf, Both;
    if r.start <= q.start {
      SameStart(stream, r.from, r.start, q.start);
    } else {
      SameStart(stream, r.from, q.start, r.start);
    }
  }

  lemma {:induction false} SameStart(stream: seq<byte>, from: nat, i: nat, j: nat)
    requires from <= i <= j <= |stream|
    requires StartMarker.StopsAfter(stream[from..i]) && StartMarker.StopsAfter(stream[from..j])
    ensures i == j
  {
    hide StartMarker.StopsAfter;
    assert stream[from..j][..i - from] == stream[from..i];
    StartMarker.StopsOnce(stream[from..j], i - from);
  }

  /**
   How the stream arrives, in which pieces and with which pauses, makes no difference: two runs
   over the same stream, in which the source has not failed, consist of the same rounds, with
   the same calls and the same reports, as far as both of them go.
   */
  lemma {:induction false} SameRounds(b: Behaviour, stream: seq<byte>, rs: seq<Round>, qs: seq<Round>, from: nat,
      past: Past)
    requires Chained(rs, from, past) && Chained(qs, from, past) && |rs| <= |qs|
    requires forall i :: 0 <= i < |rs| ==> Faithful(b, stream, rs[i]) && Smooth(rs[i])
    requires forall i :: 0 <= i < |rs| ==> Faithful(b, stream, qs[i]) && Smooth(qs[i])
    ensures rs == qs[..|rs|]
    decreases |rs|, |qs|
  {
    hide Faithful, Smooth;
    var n := |rs| - 1;
    if |rs| < |qs| {
      var m := |qs| - 1;
      SameRounds(b, stream, rs, qs[..m], from, past);
      assert qs[..m][..|rs|] == qs[..|rs|];
    } else if rs != [] {
      SameRounds(b, stream, rs[..n], qs[..n], from, past);
      assert rs[..n] == qs[..n][..n] == qs[..n];
      SameRound(b, stream, rs[n], qs[n]);
      assert rs == rs[..n] + [rs[n]] && qs == qs[..n] + [qs[n]];
    }
  }
}
