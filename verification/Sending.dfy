/** What a sender puts on the wire, and that all of it comes out at the other end. */
module Sending {
  import opened Bytes
  import opened Errors
  import opened Deframing
  import opened Tlv
  import opened Cursors
  import opened Walker
  import opened Callbacks
  import opened Messages
  import Crc
  import Headers

  // ----------------------------------------------------------------- trees

  /** A tree that can be written: its values fit the word, its lists have at most 15 elements. */
  predicate Writable(t: Tlv) {
    match t
    case Prim(ty, payload) => Headers.Nameable(ty) && ty != List && |payload| + |Headers.Encode(ty, |payload|)| < WORD
    case Node(items) => |items| <= 15 && forall i :: 0 <= i < |items| ==> Writable(items[i])
  }

  predicate AllWritable(ts: seq<Tlv>) {
    forall i :: 0 <= i < |ts| ==> Writable(ts[i])
  }

  function EncodeTree(t: Tlv): seq<byte>
    requires Writable(t)
    decreases t
  {
    match t
    case Prim(ty, payload) => Headers.Encode(ty, |payload|) + payload
    case Node(items) => Headers.Encode(List, |items|) + EncodeTrees(items)
  }

  function EncodeTrees(ts: seq<Tlv>): seq<byte>
    requires AllWritable(ts)
    decreases ts
  {
    if ts == [] then [] else EncodeTree(ts[0]) + EncodeTrees(ts[1..])
  }

  lemma {:induction false} TreeRoundTrip(data: seq<byte>, p: nat, t: Tlv)
    requires Writable(t) && At(data, p, EncodeTree(t))
    ensures FirstTree(data, p) == Some((t, p + |EncodeTree(t)|))
    decreases t
  {
    hide Headers.Encode, HeaderAt, ParseTrees;
    match t
    case Prim(ty, payload) =>
      var header := Headers.Encode(ty, |payload|);
      AtParts(data, p, header, payload);
      Headers.PrimitiveRoundTrip(data, p, ty, |payload|);
    case Node(items) =>
      var header := Headers.Encode(List, |items|);
      AtParts(data, p, header, EncodeTrees(items));
      Headers.ListRoundTrip(data, p, |items|);
      TreesRoundTrip(data, p + |header|, items);
  }

  /** Whatever trees are written, parsing gives them back. */
  lemma {:induction false} TreesRoundTrip(data: seq<byte>, p: nat, ts: seq<Tlv>)
    requires AllWritable(ts) && At(data, p, EncodeTrees(ts))
    ensures ParseTrees(data, p, |ts|) == Trees(ts, p + |EncodeTrees(ts)|)
    decreases ts
  {
    hide FirstTree;
    if ts != [] {
      hide ParseTrees, EncodeTree, Writable, At;
      AtParts(data, p, EncodeTree(ts[0]), EncodeTrees(ts[1..]));
      TreeRoundTrip(data, p, ts[0]);
      TreesRoundTrip(data, p + |EncodeTree(ts[0])|, ts[1..]);
      hide EncodeTrees;
      TreesJoined(data, p, ts);
    }
  }

  lemma {:induction false} TreesJoined(data: seq<byte>, p: nat, ts: seq<Tlv>)
    requires ts != [] && AllWritable(ts)
    requires p <= |data|
    requires var q: nat := p + |EncodeTree(ts[0])|;
             && FirstTree(data, p) == Some((ts[0], q))
             && q <= |data| && ParseTrees(data, q, |ts| - 1) == Trees(ts[1..], q + |EncodeTrees(ts[1..])|)
    ensures ParseTrees(data, p, |ts|) == Trees(ts, p + |EncodeTrees(ts)|)
  {
    hide FirstTree, ParseTrees, EncodeTree, Writable;
    ParseFirst(data, p, |ts|);
    assert [ts[0]] + ts[1..] == ts;
  }

  // -------------------------------------------------------------- messages

  /** What a sender wants to say in one message. */
  datatype Draft = Draft(id: seq<byte>, group: byte, abort: byte, body: seq<Tlv>)

  function HeadOf(m: Draft): seq<Tlv> {
    [Prim(String, m.id), Prim(Unsigned, [m.group]), Prim(Unsigned, [m.abort]), Node(m.body)]
  }

  predicate Sendable(m: Draft) {
    m.id != [] && |m.body| == 2 && AllWritable(HeadOf(m))
  }

  /** Everything of a message that its check value covers, if its header announces `n` elements. */
  function CheckedPart(m: Draft, n: nat): seq<byte>
    requires Sendable(m)
  {
    Headers.Encode(List, n) + EncodeTrees(HeadOf(m))
  }

  function CheckBytes(m: Draft, n: nat): (r: seq<byte>)
    requires Sendable(m)
    ensures |r| == 2
  {
    Crc.FinalizeFits(Crc.Update(Crc.INIT, CheckedPart(m, n)));
    CrcBytes(Crc.Crc16(CheckedPart(m, n)))
  }

  /** A message with a header that announces `n` elements, and a check value: five elements and the end marker. */
  function EncodeChecked(m: Draft, n: nat, crc: seq<byte>): seq<byte>
    requires Sendable(m)
  {
    CheckedPart(m, n) + (Headers.Encode(Unsigned, 2) + crc + [0x00])
  }

  /** The same with the check value of its own bytes. */
  function EncodeAnnouncing(m: Draft, n: nat): seq<byte>
    requires Sendable(m)
  {
    EncodeChecked(m, n, CheckBytes(m, n))
  }

  /** A message: a list of six elements, the last one being the end marker. */
  function EncodeMessage(m: Draft): seq<byte>
    requires Sendable(m)
  {
    EncodeAnnouncing(m, 6)
  }

  predicate AllSendable(ms: seq<Draft>) {
    forall i :: 0 <= i < |ms| ==> Sendable(ms[i])
  }

  function EncodeMessages(ms: seq<Draft>): seq<byte>
    requires AllSendable(ms)
  {
    if ms == [] then [] else EncodeMessage(ms[0]) + EncodeMessages(ms[1..])
  }

  /** A message that was written is read as it was meant, whatever more its header announces. */
  lemma {:induction false} MessageRoundTrip(data: seq<byte>, p: nat, m: Draft, n: nat, crc: seq<byte>)
    requires Sendable(m) && 6 <= n <= 15 && |crc| == 2 && At(data, p, EncodeChecked(m, n, crc))
    ensures MessageAt(data, p)
            == Some(Message(n, m.body, p + |CheckedPart(m, n)|, crc, p + |EncodeChecked(m, n, crc)|))
  {
    hide Headers.Encode, EncodeTrees, HeaderAt, ParseTrees, TailAt;
    var header, head := Headers.Encode(List, n), EncodeTrees(HeadOf(m));
    var tail := Headers.Encode(Unsigned, 2) + crc + [0x00];
    AtParts(data, p, CheckedPart(m, n), tail);
    AtParts(data, p, header, head);
    Headers.ListRoundTrip(data, p, n);
    TreesRoundTrip(data, p + |header|, HeadOf(m));
    TailRoundTrip(data, p + |CheckedPart(m, n)|, crc);
  }

  lemma {:induction false} TailRoundTrip(data: seq<byte>, p: nat, crc: seq<byte>)
    requires |crc| == 2 && At(data, p, Headers.Encode(Unsigned, 2) + crc + [0x00])
    ensures TailAt(data, p) == Some((crc, p + |Headers.Encode(Unsigned, 2) + crc + [0x00]|))
  {
    hide HeaderAt, ParseTrees, FirstTree;
    var t := Prim(Unsigned, crc);
    ShortHeader(Unsigned, 2);
    assert EncodeTree(t) == Headers.Encode(Unsigned, 2) + crc;
    AtParts(data, p, EncodeTree(t), [0x00]);
    TreeRoundTrip(data, p, t);
    EndMarkerRead(data, p + |EncodeTree(t)|);
  }

  lemma {:induction false} ShortHeader(ty: TlvType, len: nat)
    requires Headers.Nameable(ty) && ty != List && len <= 14
    ensures |Headers.Encode(ty, len)| == 1
  {
    assert Headers.Pow16(1) == 16;
  }

  lemma {:induction false} EndMarkerRead(data: seq<byte>, p: nat)
    requires At(data, p, [0x00])
    ensures HeaderAt(data, p) == Bad(EndOfSmlMessage, p + 1)
  {
    assert data[p] == data[p..p + 1][0] == 0;
  }

  // ---------------------------------------------------------------- frames

  /** A callback is told some message bodies, one after the other. */
  function Tell(b: Behaviour, ms: seq<Draft>, st: State): Option<State> {
    if ms == [] then Some(st)
    else
      match OnMessage(b, ms[0].body, st)
      case Err(_) => None
      case Ok(next) => Tell(b, ms[1..], next)
  }

  /** Data made of messages is accepted exactly if the callback accepts each body, in order. */
  lemma {:induction false} MessagesAccepted(b: Behaviour, data: seq<byte>, p: nat, ms: seq<Draft>, st: State)
    requires AllSendable(ms) && At(data, p, EncodeMessages(ms)) && p + |EncodeMessages(ms)| == |data|
    ensures AcceptAll(b, data, Between(p, 0, st))
            == match Tell(b, ms, st)
               case None => None
               case Some(after) => Some((|ms|, after))
    decreases |ms|
  {
    hide EncodeMessage, MessageAt, OnMessage, Accept, At;
    if ms != [] {
      var m, s := ms[0], Between(p, 0, st);
      AtParts(data, p, EncodeMessage(m), EncodeMessages(ms[1..]));
      AcceptMessage(b, data, s, m);
      if OnMessage(b, m.body, st).Ok? {
        MessagesAccepted(b, data, p + |EncodeMessage(m)|, ms[1..], OnMessage(b, m.body, st).value);
      }
    }
  }

  lemma {:induction false} AcceptMessage(b: Behaviour, data: seq<byte>, s: Between, m: Draft)
    requires Sendable(m) && At(data, s.at, EncodeMessage(m)) && s.owed == 0
    ensures |EncodeMessage(m)| > 0
    ensures Accept(b, data, s)
            == match OnMessage(b, m.body, s.st)
               case Err(_) => None
               case Ok(next) => Some(Between(s.at + |EncodeMessage(m)|, 0, next))
  {
    hide OnMessage, EncodeAnnouncing, Accept;
    AcceptAnnouncing(b, data, s, m, 6);
  }

  lemma {:induction false} AcceptAnnouncing(b: Behaviour, data: seq<byte>, s: Between, m: Draft, n: nat)
    requires Sendable(m) && 6 <= n <= 15 && At(data, s.at, EncodeAnnouncing(m, n)) && s.owed == 0
    ensures |EncodeAnnouncing(m, n)| > 0
    ensures Accept(b, data, s)
            == match OnMessage(b, m.body, s.st)
               case Err(_) => None
               case Ok(next) => Some(Between(s.at + |EncodeAnnouncing(m, n)|, n - 6, next))
  {
    hide MessageAt, OnMessage, EncodeTrees, EncodeChecked, CheckedPart, CheckBytes, Crc.Crc16, Accept;
    NoTrees();
    assert [] + CheckedPart(m, n) == CheckedPart(m, n);
    assert [] + EncodeAnnouncing(m, n) == EncodeAnnouncing(m, n);
    AcceptAfterSpare(b, data, s, [], m, n, CheckBytes(m, n));
    CheckBytesValue(m, n);
  }

  lemma {:induction false} NoTrees()
    ensures EncodeTrees([]) == []
  {
  }

  lemma {:induction false} CheckBytesValue(m: Draft, n: nat)
    requires Sendable(m)
    ensures Le(CheckBytes(m, n)) == Crc.Crc16(CheckedPart(m, n))
  {
    hide CheckedPart, Crc.Update, Crc.Finalize;
    Crc.FinalizeFits(Crc.Update(Crc.INIT, CheckedPart(m, n)));
    CrcBytesValue(Crc.Crc16(CheckedPart(m, n)));
  }

  /**
   A message that comes after the spare elements `ts` of the one before is accepted exactly if
   its check value is that of the spare elements and its own bytes together, and the callback
   accepts its body.
   */
  lemma {:induction false} AcceptAfterSpare(b: Behaviour, data: seq<byte>, s: Between, ts: seq<Tlv>, m: Draft, n: nat, crc: seq<byte>)
    requires AllWritable(ts) && s.owed == |ts| && Sendable(m) && 6 <= n <= 15 && |crc| == 2
    requires At(data, s.at, EncodeTrees(ts) + EncodeChecked(m, n, crc))
    ensures |EncodeChecked(m, n, crc)| > 0
    ensures Accept(b, data, s)
            == if Le(crc) != Crc.Crc16(EncodeTrees(ts) + CheckedPart(m, n)) then None
               else
                 match OnMessage(b, m.body, s.st)
                 case Err(_) => None
                 case Ok(next) => Some(Between(s.at + |EncodeTrees(ts) + EncodeChecked(m, n, crc)|, n - 6, next))
  {
    hide MessageAt, OnMessage, EncodeTrees, CheckedPart, ParseTrees, Headers.Encode, Crc.Crc16, Le;
    var spare, checked := EncodeTrees(ts), CheckedPart(m, n);
    AtParts(data, s.at, spare, EncodeChecked(m, n, crc));
    TreesRoundTrip(data, s.at, ts);
    MessageRoundTrip(data, s.at + |spare|, m, n, crc);
    AtParts(data, s.at + |spare|, checked, Headers.Encode(Unsigned, 2) + crc + [0x00]);
    AtParts(data, s.at, spare, checked);
  }

  /** Something to send, so that the statements above are about something. */
  const SAMPLE: Draft := Draft([0x01], 0, 0, [Prim(Unsigned, [0x01]), Node([])])

  lemma {:induction false} SampleSendable()
    ensures Sendable(SAMPLE) && AllSupported(SAMPLE.body)
  {
    ShortHeader(String, 1);
    ShortHeader(Unsigned, 1);
    assert Writable(SAMPLE.body[0]) && Writable(SAMPLE.body[1]);
    var head := HeadOf(SAMPLE);
    assert Writable(head[0]) && Writable(head[1]) && Writable(head[2]) && Writable(head[3]);
  }

  /** What a callback observes in one message. */
  function Observes(strategy: Strategy, steps: nat, heard: Past, body: seq<Tlv>): seq<Result<Obs>> {
    match WalkRun([Items(body)], strategy, heard, [], steps)
    case Tour(_, log) => log
    case TourAborted(_) => []
  }

  /** What it has observed when some more messages are over. */
  function ObservesAll(strategy: Strategy, steps: nat, heard: Past, ms: seq<Draft>): (r: Past)
    ensures |r| == |heard| + |ms|
    decreases |ms|
  {
    if ms == [] then heard
    else ObservesAll(strategy, steps, heard + [Observes(strategy, steps, heard, ms[0].body)], ms[1..])
  }

  /** Whatever it has observed, it is content. */
  ghost predicate Content(strategy: Strategy) {
    forall heard, log :: strategy(heard, log).Reply? ==> strategy(heard, log).reply.Ok?
  }

  /** A callback that only ever replies `Ok`, told bodies of supported types, accepts them all. */
  lemma {:induction false} ContentCallback(strategy: Strategy, steps: nat, ms: seq<Draft>, st: State)
    requires Content(strategy) && forall i :: 0 <= i < |ms| ==> AllSupported(ms[i].body)
    ensures Tell(Strategic(strategy, steps), ms, st) == Some(st.(heard := ObservesAll(strategy, steps, st.heard, ms)))
    decreases |ms|
  {
    hide OnMessage, Observes, AllSupported, Content;
    if ms != [] {
      Contented(strategy, steps, ms[0].body, st);
      ContentCallback(strategy, steps, ms[1..], OnMessage(Strategic(strategy, steps), ms[0].body, st).value);
    }
  }

  lemma {:induction false} Contented(strategy: Strategy, steps: nat, body: seq<Tlv>, st: State)
    requires Content(strategy) && AllSupported(body)
    ensures OnMessage(Strategic(strategy, steps), body, st)
            == Ok(st.(heard := st.heard + [Observes(strategy, steps, st.heard, body)]))
  {
    hide WalkRun, AllSupported;
    assert StackSupported([Items(body)]);
    WalkNeverAborts([Items(body)], strategy, st.heard, [], steps);
  }

  /**
   Messages put into one frame come out again: the frame is valid, its payload is theirs, and
   it is accepted exactly if the callback accepts each body, in order. Nothing of what
   follows in the stream is touched.
   */
  lemma {:induction false} FrameDelivered(b: Behaviour, stream: seq<byte>, p: nat, ms: seq<Draft>, st: State)
    requires ms != [] && AllSendable(ms) && At(stream, p, FrameOf(EncodeMessages(ms)))
    ensures var feed := DecodeFrame(stream, p);
            && feed.verdict.Ended? && feed.next == p + |FrameOf(EncodeMessages(ms))|
            && AcceptPayload(b, feed.data, st)
               == match Tell(b, ms, st)
                  case None => None
                  case Some(after) => Some((|ms|, after))
  {
    hide FrameOf, DecodeFrame, EncodeMessage, Tell;
    var payload := EncodeMessages(ms);
    PayloadRoundTrip(stream, p, payload);
    assert At(payload, 0, payload);
    SomethingSent(ms[0]);
    MessagesAccepted(b, payload, 0, ms, st);
  }

  /**
   End to end: a callback that only ever replies `Ok`, whatever it does with the message bodies
   and however it decides on that, is given each message of the frame once and in order, and
   observes the same as if it walked the trees that were sent.
   */
  lemma {:induction false} EndToEnd(strategy: Strategy, steps: nat, stream: seq<byte>, p: nat, ms: seq<Draft>, st: State)
    requires ms != [] && AllSendable(ms) && At(stream, p, FrameOf(EncodeMessages(ms)))
    requires Content(strategy) && forall i :: 0 <= i < |ms| ==> AllSupported(ms[i].body)
    ensures var feed := DecodeFrame(stream, p);
            && feed.verdict.Ended? && feed.next == p + |FrameOf(EncodeMessages(ms))|
            && AcceptPayload(Strategic(strategy, steps), feed.data, st)
               == Some((|ms|, st.(heard := ObservesAll(strategy, steps, st.heard, ms))))
  {
    hide FrameOf, DecodeFrame, EncodeMessages, ObservesAll, Tell, AcceptPayload, Content;
    FrameDelivered(Strategic(strategy, steps), stream, p, ms, st);
    ContentCallback(strategy, steps, ms, st);
  }

  lemma {:induction false} SomethingSent(m: Draft)
    requires Sendable(m)
    ensures EncodeMessage(m) != []
  {
  }
}
