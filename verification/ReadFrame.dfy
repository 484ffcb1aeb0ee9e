/** Reading the messages of one frame and handing their bodies to the callback. */
module ReadFrame {
  import opened Bytes
  import opened Errors
  import opened Tlv
  import opened Spec = Cursors
  import opened Walker
  import opened Consumer
  import opened TlvReader
  import opened Callbacks
  import opened Messages
  import opened Steps
  import opened FrameRuns
  import Crc
  import Deframing
  import Frame
  import Io
  import Message

  /** `next_*` on the list of a message. */
  method OpenElement(reader: Reader, ty: TlvType) returns (r: Result<nat>)
    requires reader.Live() && |reader.handles| == 1 && reader.handles[0].ty == List
    modifies reader.Repr()
    ensures reader.Steady(old(reader.reader.since), old(reader.reader.pending), old(reader.reader.faults))
    ensures reader.Agrees(old(reader.reader.faults), ElementOf(reader.reader.data, old(reader.View()), ty), r)
  {
    hide Message.CheckingReader.Valid, Message.CheckingReader.Repr, Land, ElementOf, Next, Grown;
    ghost var g := Ground(0, 0, Land(reader.reader.data, reader.View(), 0));
    ghost var left;
    r, left := NextOf(reader, ty, g, None);
  }

  /** A number among the elements of a message. */
  method ReadNumber(reader: Reader, min: nat, max: nat) returns (r: Result<seq<byte>>)
    requires reader.Live() && |reader.handles| == 1 && reader.handles[0].ty == List
    modifies reader.Repr()
    ensures reader.Steady(old(reader.reader.since), old(reader.reader.pending), old(reader.reader.faults))
    ensures reader.Agrees(old(reader.reader.faults), NumberStep(reader.reader.data, old(reader.View()), min, max), r)
    ensures r.Ok? ==> reader.reader.faults == old(reader.reader.faults) && AtList(reader)
  {
    hide Message.CheckingReader.Valid, ElementOf;
    OnList(reader.reader.data, reader.View(), Unsigned);
    var len := OpenElement(reader, Unsigned);
    if len.Err? {
      return Err(len.error);
    }
    r := reader.Into(min, max);
  }

  /** The message list is the only handle there is. */
  ghost predicate AtList(reader: Reader)
    reads reader
  {
    |reader.handles| == 1 && reader.handles[0].ty == List
  }

  /** An element goes on top of the list of a message. */
  lemma {:induction false} OnList(data: seq<byte>, c: Cursor, ty: TlvType)
    requires |c.handles| == 1 && c.handles[0].ty == List
    ensures var s := ElementOf(data, c, ty);
            !s.IsFailure() ==> |s.cursor.handles| == 2 && s.cursor.handles[0].ty == List && s.cursor.handles[1].ty == ty
  {
    hide HeaderAt, Flush;
  }

  /** Opens the message's list and drops the transaction ID unread. */
  method ReadId(reader: Reader) returns (r: Result<nat>)
    requires reader.Live() && reader.handles == []
    modifies reader.Repr()
    ensures reader.Steady(old(reader.reader.since), old(reader.reader.pending), old(reader.reader.faults))
    ensures reader.Agrees(old(reader.reader.faults), IdStep(reader.reader.data, old(reader.View())), r)
    ensures r.Ok? ==> reader.reader.faults == old(reader.reader.faults) && AtList(reader)
  {
    hide Message.CheckingReader.Valid, ElementOf, ReadTlv;
    r := reader.ReadList();
    if r.Err? {
      return;
    }
    OnList(reader.reader.data, reader.View(), String);
    var id := OpenElement(reader, String);
    if id.Err? {
      return Err(id.error);
    }
    reader.DropTop();
  }

  /** Reads up to the two elements of the message body. */
  method ReadHead(reader: Reader) returns (r: Result<nat>)
    requires reader.Live() && reader.handles == []
    modifies reader.Repr()
    ensures reader.Steady(old(reader.reader.since), old(reader.reader.pending), old(reader.reader.faults))
    ensures reader.Agrees(old(reader.reader.faults), HeadStep(reader.reader.data, old(reader.View())), r)
  {
    hide Message.CheckingReader.Valid, ElementOf, NumberStep, IdStep;
    r := ReadId(reader);
    if r.Err? {
      return;
    }
    var group := ReadNumber(reader, 1, 1);
    if group.Err? {
      return Err(group.error);
    }
    var abort := ReadNumber(reader, 1, 1);
    if abort.Err? {
      return Err(abort.error);
    }
    var body := OpenElement(reader, List);
    if body.Err? {
      return Err(body.error);
    }
    if body.value != 2 {
      reader.DropTop();
      return Err(UnsupportedLen(body.value));
    }
  }

  /** What the callback can rely on when it gets the body. */
  lemma {:induction false} BodyReady(data: seq<byte>, b: nat, n: nat)
    requires b <= |data| && n >= 4
    ensures var c, body := InBody(b, n), ParseTrees(data, b, 2);
            && Tidy(c, 1) && Land(data, c, 1) == Report(body)
            && (body.Trees? ==> Rel(data, c, 1, [Items(body.items)], body.next))
  {
    hide ParseTrees, SkipFlat;
    var c := InBody(b, n);
    FlatIsDescent(data, b, 2);
    SkipNone(data, b);
    assert c.handles[..1] == [Handle(List, n - 4)];
    assert LiveTlvs(c.handles, 1) == 2 by { LiveOfTop(c, 1); }
    var body := ParseTrees(data, b, 2);
    if body.Trees? {
      CoversPush(data, b, [Handle(List, n - 4)], Handle(List, 2), 1, [], Items(body.items), body.next);
      assert [Handle(List, n - 4)] + [Handle(List, 2)] == c.handles;
      assert [] + [Items(body.items)] == [Items(body.items)];
      FlushedRel(data, c, 1, [Items(body.items)], body.next);
    }
  }

  /** Hands the body in use to the callback and skips what it has left. */
  method ReadBody(reader: Reader, callback: Callback, n: nat) returns (r: Result<()>)
    requires Sensible(callback.behaviour) && callback !in reader.Repr() && n >= 4
    requires reader.Live() && reader.reader.at <= |reader.reader.data| && reader.View() == InBody(reader.reader.at, n)
    modifies reader.Repr(), callback
    ensures reader.Steady(old(reader.reader.since), old(reader.reader.pending), old(reader.reader.faults))
    ensures callback.Follows(reader, old(reader.reader.faults), HandStep(callback.behaviour, reader.reader.data, old(reader.View()), old(callback.Memory())), r)
    ensures reader.reader.faults == old(reader.reader.faults) ==>
              callback.heard == HeardThen(callback.behaviour, reader.reader.data, old(reader.View()), 1, old(callback.heard))
    ensures reader.reader.faults > old(reader.reader.faults) ==>
              callback.heard in {old(callback.heard), HeardThen(callback.behaviour, reader.reader.data, old(reader.View()), 1, old(callback.heard))}
    ensures callback.events == old(callback.events) + [MessageReceived]
    ensures old(reader.reader.at) <= |reader.reader.data|
    ensures var body := ParseTrees(reader.reader.data, old(reader.reader.at), 2);
            && (r.Ok? ==>
                  && reader.reader.faults == old(reader.reader.faults)
                  && body.Trees? && reader.Live() && reader.View() == InList(body.next, 0, n - 4))
            && (reader.reader.faults == old(reader.reader.faults) && body.Trees? ==>
                  match OnMessage(callback.behaviour, body.items, old(callback.Memory()))
                  case Ok(next) => r.Ok? && callback.Memory() == next
                  case Err(_) => r.Err?)
  {
    hide Message.CheckingReader.Valid, ParseTrees, SkipFlat, Rel, Tidy, Land, OnMessage, Flush;
    ghost var data, b := reader.reader.data, reader.reader.at;
    ghost var body := ParseTrees(data, b, 2);
    BodyReady(data, b, n);
    ghost var g := Ground(1, if body.Trees? then body.next else 0, Report(body));
    r := callback.OnMessageReceived(reader, 1, g, if body.Trees? then Some(body.items) else None);
    if r.Err? {
      return;
    }
    LandOfDebts(data, reader.View(), 1);
    r := reader.SkipNow();
  }

  /** Reads the message's check value and its end, and compares. */
  method ReadTail(reader: Reader) returns (r: Result<()>)
    requires reader.Live() && AtList(reader)
    modifies reader.Repr()
    ensures reader.Steady(old(reader.reader.at), old(reader.reader.pending), old(reader.reader.faults))
    ensures reader.Agrees(old(reader.reader.faults), TailStep(reader.reader.data, old(reader.View()), old(reader.reader.since)), r)
  {
    hide Message.CheckingReader.Valid, EndMarker, NumberStep, Crc.Crc16, Be, Le;
    var computed := reader.reader.Finalize();
    var crc := ReadNumber(reader, 2, 2);
    if crc.Err? {
      return Err(crc.error);
    }
    TwoBytes(reader.reader.data, old(reader.View()), crc.value);
    SwappedBe(crc.value);
    r := reader.NextEnd();
    if r.Err? {
      return;
    }
    reader.DropTop();
    if SwapBytes(Be(crc.value)) != computed {
      return Err(ChecksumMismatch(Be(crc.value), computed));
    }
    r := Ok(());
  }

  lemma {:induction false} TwoBytes(data: seq<byte>, c: Cursor, bytes: seq<byte>)
    requires NumberStep(data, c, 2, 2).Step? && NumberStep(data, c, 2, 2).result == Ok(bytes)
    ensures |bytes| == 2
  {
    hide ElementOf;
  }

  /** Reads one message. */
  method ReadMessage(reader: Reader, callback: Callback) returns (r: Result<()>, ghost heard: nat)
    requires Sensible(callback.behaviour) && callback !in reader.Repr()
    requires reader.Live() && reader.remainingBytes == 0 && reader.handles == [] && reader.reader.since == reader.reader.at
    modifies reader.Repr(), callback
    ensures reader.Valid() && reader.reader.pending <= old(reader.reader.pending) && reader.reader.faults >= old(reader.reader.faults)
    ensures heard <= 1 && (r.Ok? ==> heard == 1)
    ensures callback.events == old(callback.events) + if heard == 1 then [MessageReceived] else []
    ensures reader.reader.faults > old(reader.reader.faults) ==>
              reader.reader.failure.Some? && r == Err(Io(reader.reader.failure.value))
    ensures reader.reader.faults == old(reader.reader.faults) ==>
              var told := MessageStep(callback.behaviour, reader.reader.data, old(reader.View()), old(callback.Memory()));
              && callback.Follows(reader, reader.reader.faults, told.step, r)
              && heard == told.heard && callback.heard == told.past
    ensures reader.reader.faults > old(reader.reader.faults) ==>
              var told := MessageStep(callback.behaviour, reader.reader.data, old(reader.View()), old(callback.Memory()));
              heard <= told.heard && old(callback.heard) <= callback.heard <= told.past
    ensures var next := Accept(callback.behaviour, reader.reader.data,
                               Between(old(reader.reader.at), old(reader.remainingTlvs), old(callback.Memory())));
            && (r.Ok? ==>
                  && next == Some(Between(reader.reader.at, reader.remainingTlvs, callback.Memory()))
                  && reader.Live() && reader.remainingBytes == 0 && reader.handles == []
                  && reader.reader.since == reader.reader.at)
            && (reader.reader.faults == old(reader.reader.faults) ==> (next.Some? <==> r.Ok?))
  {
    hide Message.CheckingReader.Valid, HeaderAt, ParseTrees, TailAt, Crc.Crc16, OnMessage, Accept, HeadFrom;
    hide HeadStep, HandStep, TailStep, HeardThen;
    heard := 0;
    ghost var data, at := reader.reader.data, reader.reader.at;
    AcceptSteps(callback.behaviour, data, Between(at, reader.remainingTlvs, callback.Memory()));
    PastGrows(callback.behaviour, data, reader.View(), callback.Memory());
    HeadStepExact(data, at, reader.remainingTlvs);
    var n := ReadHead(reader);
    if n.Err? {
      return Err(n.error), heard;
    }
    heard := 1;
    r := ReadBody(reader, callback, n.value);
    if r.Err? {
      return;
    }
    TailStepExact(data, reader.reader.at, n.value - 4, at);
    r := ReadTail(reader);
    if r.Err? {
      return;
    }
    reader.reader.Reset();
  }

  /** Accepting a message, in the steps in which it is read. */
  lemma {:induction false} AcceptSteps(b: Behaviour, data: seq<byte>, s: Between)
    requires s.at <= |data|
    ensures var head := HeadFrom(data, s.at, s.owed);
            Accept(b, data, s)
            == if head.None? then None
               else
                 var body := ParseTrees(data, head.value.1, 2);
                 if !body.Trees? then None
                 else
                   match OnMessage(b, body.items, s.st)
                   case Err(_) => None
                   case Ok(st) =>
                     var tail := TailAt(data, body.next);
                     if head.value.0 >= 6 && tail.Some? && s.at <= body.next
                        && Le(tail.value.0) == Crc.Crc16(data[s.at..body.next])
                     then Some(Between(tail.value.1, head.value.0 - 6, st))
                     else None
  {
    hide HeaderAt, ParseTrees, TailAt, Crc.Crc16, OnMessage, HeadAt, IsHead, Le;
    var spare := ParseTrees(data, s.at, s.owed);
    if spare.Trees? {
      HeadIsGrammar(data, spare.next);
    }
  }

  /** The result is that error, or there is none. */
  predicate Fails(r: Result<()>, failure: Option<Error>) {
    match failure
    case None => r.Ok?
    case Some(e) => r == Err(e)
  }

  /** Reads messages until the frame has ended. */
  method ReadMessages(reader: Reader, callback: Callback) returns (r: Result<()>, ghost heard: nat)
    requires Sensible(callback.behaviour) && callback !in reader.Repr()
    requires reader.Live() && reader.View() == Outside(0, 0) && reader.reader.since == 0 && !reader.reader.HasEnded()
    modifies reader.Repr(), callback
    ensures reader.Valid() && reader.reader.pending <= old(reader.reader.pending) && reader.reader.faults >= old(reader.reader.faults)
    ensures callback.events == old(callback.events) + Copies(MessageReceived, heard)
    ensures var accepted := AcceptPayload(callback.behaviour, reader.reader.data, old(callback.Memory()));
            && (r.Ok? ==>
                  && reader.reader.faults == old(reader.reader.faults)
                  && reader.reader.verdict.Ended? && reader.Spent()
                  && accepted == Some((heard, callback.Memory())))
            && (reader.reader.faults == old(reader.reader.faults) ==> (r.Ok? <==> reader.reader.verdict.Ended? && accepted.Some?))
    ensures reader.reader.faults == old(reader.reader.faults) ==>
              var halt := HaltOf(callback.behaviour, reader.reader.data, reader.reader.verdict, old(callback.Memory()));
              && Fails(r, halt.failure) && heard == halt.heard && callback.heard == halt.past
              && reader.reader.raw == if halt.at.Some? then reader.reader.Place(halt.at.value) else reader.reader.next
    ensures reader.reader.faults > old(reader.reader.faults) ==>
              && reader.reader.failure.Some? && r == Err(Io(reader.reader.failure.value))
              && Begins(callback.behaviour, reader.reader.data, reader.reader.verdict, old(callback.Memory()), heard, callback.heard)
  {
    hide Message.CheckingReader.Valid, Accept, AcceptAll, RunOf, MessageStep;
    ghost var b, data, verdict, st := callback.behaviour, reader.reader.data, reader.reader.verdict, callback.Memory();
    heard := 0;
    AfterNothing(AcceptAll(b, data, Between(0, 0, st)));
    while !reader.reader.HasEnded()
      invariant reader.Live() && reader.View() == Outside(reader.reader.at, reader.remainingTlvs)
      invariant reader.reader.since == reader.reader.at
      invariant reader.reader.faults == old(reader.reader.faults) && reader.reader.pending <= old(reader.reader.pending)
      invariant callback.events == old(callback.events) + Copies(MessageReceived, heard)
      invariant if heard == 0 then
                  reader.reader.at == 0 == reader.remainingTlvs && callback.Memory() == st && !reader.reader.HasEnded()
                else reader.reader.at > 0
      invariant heard <= reader.reader.at && st.heard <= callback.heard
      invariant AcceptAll(b, data, Between(0, 0, st))
                == After(heard, AcceptAll(b, data, Between(reader.reader.at, reader.remainingTlvs, callback.Memory())))
      invariant HaltOf(b, data, verdict, st)
                == RunOf(b, data, verdict, reader.View(), callback.Memory(), heard, |data| + 1 - heard)
      decreases |data| - reader.reader.at
    {
      AcceptStep(b, data, Between(reader.reader.at, reader.remainingTlvs, callback.Memory()), heard);
      if reader.reader.at > 0 {
        reader.reader.EndIsExact();
      }
      RunFirst(b, data, verdict, reader.View(), callback.Memory(), heard, |data| + 1 - heard);
      ghost var more;
      RunGoesOn(b, data, verdict, reader.View(), callback.Memory(), heard, |data| + 1 - heard);
      r, more := ReadMessage(reader, callback);
      heard := heard + more;
      if r.Err? {
        return;
      }
    }
    reader.reader.EndIsExact();
    reader.reader.SourceStands();
    AcceptEnd(b, data, Between(reader.reader.at, reader.remainingTlvs, callback.Memory()));
    RunOver(b, data, verdict, reader.View(), callback.Memory(), heard, |data| + 1 - heard);
    r := Ok(());
  }

  /**
   Reads the frame whose first block is next in the stream. It succeeds exactly if the frame
   is valid: the transport layer accepts it and its payload is a run of messages, each with
   the right check value, that the callback accepts. The callback has then been given each of
   them once, in order, and the source stands just after the frame.
   */
  method ReadFrame(source: Io.Source, callback: Callback) returns (r: Result<()>, ghost heard: nat)
    requires source.Valid() && Sensible(callback.behaviour)
    modifies source, callback
    ensures source.Valid() && source.pos >= old(source.pos)
    ensures |source.schedule| <= |old(source.schedule)| && source.faults >= old(source.faults)
    ensures callback.events == old(callback.events) + Copies(MessageReceived, heard)
    ensures var feed := Deframing.DecodeFrame(source.stream, old(source.pos));
            var accepted := AcceptPayload(callback.behaviour, feed.data, old(callback.Memory()));
            && (r.Ok? ==>
                  && source.faults == old(source.faults)
                  && feed.verdict.Ended? && source.pos == feed.next
                  && accepted == Some((heard, callback.Memory())))
            && (source.faults == old(source.faults) ==> (r.Ok? <==> feed.verdict.Ended? && accepted.Some?))
    ensures source.pos <= Deframing.DecodeFrame(source.stream, old(source.pos)).next
    ensures Io.Leads(|source.stream|, old(source.Now()), source.Now())
    ensures var feed := Deframing.DecodeFrame(source.stream, old(source.pos));
            !feed.verdict.Starved? ==>
              && (source.faults > old(source.faults) ==> source.pos < feed.next)
              && (Io.Enough(old(source.schedule), feed.next - old(source.pos)) ==> source.faults == old(source.faults))
    ensures source.faults > old(source.faults) ==>
              source.faults == old(source.faults) + 1 && r.Err? && r.error.Io? && Io.Blames(old(source.schedule), source.Now(), r.error.error)
    ensures source.faults > old(source.faults) ==>
              var feed := Deframing.DecodeFrame(source.stream, old(source.pos));
              Begins(callback.behaviour, feed.data, feed.verdict, old(callback.Memory()), heard, callback.heard)
    ensures source.faults == old(source.faults) ==>
              var feed := Deframing.DecodeFrame(source.stream, old(source.pos));
              Fails(r, HaltOf(callback.behaviour, feed.data, feed.verdict, old(callback.Memory())).failure)
    ensures source.faults == old(source.faults) ==>
              Halts(callback.behaviour, source.stream, old(source.pos), old(callback.Memory()),
                r.Ok?, heard, source.pos, callback.heard)
  {
    hide Message.CheckingReader.Valid, Frame.CheckingReader.Valid, AcceptPayload, HaltOf, Begins;
    hide Deframing.DecodeFrame, Deframing.FrameMarks, Deframing.PlaceOf;
    var frame := new Frame.CheckingReader(source);
    var message := new Message.CheckingReader(frame);
    message.SourceStands();
    var reader := new Reader(message);
    r, heard := ReadMessages(reader, callback);
    message.SourceStands();
    hide Io.Leads, Io.Gifts, Io.HasFault, Io.Enough;
    ghost var feed := Deframing.DecodeFrame(source.stream, frame.start);
    if Io.Enough(old(source.schedule), feed.next - old(source.pos)) {
      Io.EnoughReads(|source.stream|, old(source.Now()), source.Now(), feed.next);
    }
  }

  /** How reading the frame at `p` ends if the source does not fail; `to` is how far the stream is read. */
  ghost predicate Halts(b: Behaviour, stream: seq<byte>, p: nat, st: State, ok: bool, heard: nat, to: nat, past: Past)
    requires Sensible(b)
  {
    var feed := Deframing.DecodeFrame(stream, p);
    var halt := HaltOf(b, feed.data, feed.verdict, st);
    && ok == halt.failure.None? && heard == halt.heard && past == halt.past
    && to == if halt.at.Some? then Deframing.PlaceOf(stream, p, halt.at.value) else feed.next
  }

  function After(heard: nat, rest: Option<(nat, State)>): Option<(nat, State)> {
    var (more, st) :- rest;
    Some((heard + more, st))
  }

  lemma {:induction false} AfterNothing(rest: Option<(nat, State)>)
    ensures After(0, rest) == rest
  {
    if rest.Some? {
      assert rest.value == (rest.value.0, rest.value.1);
    }
  }

  lemma {:induction false} AfterMore(heard: nat, rest: Option<(nat, State)>)
    ensures After(heard, After(1, rest)) == After(heard + 1, rest)
  {
  }

  lemma {:induction false} AcceptStep(b: Behaviour, data: seq<byte>, s: Between, heard: nat)
    ensures match Accept(b, data, s)
            case None => s.at < |data| ==> AcceptAll(b, data, s).None?
            case Some(next) => After(heard, AcceptAll(b, data, s)) == After(heard + 1, AcceptAll(b, data, next))
  {
    hide Accept, After;
    AcceptFirst(b, data, s);
    if Accept(b, data, s).Some? {
      AfterMore(heard, AcceptAll(b, data, Accept(b, data, s).value));
    }
  }

  lemma {:induction false} AcceptFirst(b: Behaviour, data: seq<byte>, s: Between)
    ensures match Accept(b, data, s)
            case None => s.at < |data| ==> AcceptAll(b, data, s).None?
            case Some(next) => AcceptAll(b, data, s) == After(1, AcceptAll(b, data, next))
  {
    hide Accept;
  }

  lemma {:induction false} AcceptEnd(b: Behaviour, data: seq<byte>, s: Between)
    requires s.at == |data|
    ensures AcceptAll(b, data, s) == Some((0, s.st))
  {
  }
}
