/** Message lists with other than six elements: what is accepted although it is cut short, and what is refused. */
module SpareElements {
  import opened Bytes
  import opened Errors
  import opened Deframing
  import opened Tlv
  import opened Walker
  import opened Callbacks
  import opened Messages
  import opened MessageLists
  import opened Sending
  import Crc
  import Headers

  /**
   A truncated list is accepted: if the header of the last message announces up to 15 elements
   and only six are there, nobody notices. Such a payload is no run of complete lists.
   */
  lemma {:induction false} TruncatedAccepted(b: Behaviour, m: Draft, n: nat, st: State)
    requires Sendable(m) && 6 <= n <= 15
    ensures AcceptPayload(b, EncodeAnnouncing(m, n), st)
            == match OnMessage(b, m.body, st)
               case Err(_) => None
               case Ok(after) => Some((1, after))
    ensures OnMessage(b, m.body, st).Ok? ==> (WholeLists(EncodeAnnouncing(m, n), 0) <==> n == 6)
  {
    hide MessageAt, OnMessage, EncodeAnnouncing, Accept, WholeLists;
    var data, s := EncodeAnnouncing(m, n), Between(0, 0, st);
    assert At(data, 0, data);
    AcceptAnnouncing(b, data, s, m, n);
    if OnMessage(b, m.body, st).Ok? {
      var next := Accept(b, data, s).value;
      assert next == Between(|data|, n - 6, next.st);
      assert AcceptAll(b, data, next) == Some((0, next.st));
      SpansFirst(b, data, s);
      NoSpans(data, n - 6);
      WholeIfLastHasSix(b, data, st);
    }
  }

  // ------------------------------------------ two messages, spare elements between

  /** A complete list of `6 + |ts|` elements, the last ones being `ts`, and a message with some check value. */
  function WithSpare(m: Draft, ts: seq<Tlv>, last: Draft, crc: seq<byte>): seq<byte>
    requires Sendable(m) && Sendable(last) && AllWritable(ts)
  {
    EncodeAnnouncing(m, 6 + |ts|) + (EncodeTrees(ts) + EncodeChecked(last, 6, crc))
  }

  /** What the second check value must cover. */
  function Straddled(ts: seq<Tlv>, last: Draft): seq<byte>
    requires Sendable(last) && AllWritable(ts)
  {
    EncodeTrees(ts) + CheckedPart(last, 6)
  }

  function StraddlingBytes(ts: seq<Tlv>, last: Draft): (r: seq<byte>)
    requires Sendable(last) && AllWritable(ts)
    ensures |r| == 2
    ensures Crc.Crc16(Straddled(ts, last)) < 0x1_0000
  {
    Crc.FinalizeFits(Crc.Update(Crc.INIT, Straddled(ts, last)));
    CrcBytes(Crc.Crc16(Straddled(ts, last)))
  }

  /** The check value of the second message decides, over the spare elements and the message together. */
  lemma {:induction false} SpareAccepted(b: Behaviour, m: Draft, ts: seq<Tlv>, last: Draft, crc: seq<byte>, st: State)
    requires Sendable(m) && Sendable(last) && AllWritable(ts) && |ts| <= 9 && |crc| == 2
    ensures AcceptPayload(b, WithSpare(m, ts, last, crc), st)
            == if Le(crc) != Crc.Crc16(Straddled(ts, last)) then None
               else
                 match Tell(b, [m, last], st)
                 case None => None
                 case Some(after) => Some((2, after))
  {
    hide OnMessage, EncodeAnnouncing, EncodeChecked, EncodeTrees, CheckedPart, Accept, Crc.Crc16, Le;
    var n := 6 + |ts|;
    var data, first, s := WithSpare(m, ts, last, crc), EncodeAnnouncing(m, n), Between(0, 0, st);
    assert At(data, 0, data);
    AtParts(data, 0, first, EncodeTrees(ts) + EncodeChecked(last, 6, crc));
    AcceptAnnouncing(b, data, s, m, n);
    AcceptFirst(b, data, s);
    if OnMessage(b, m.body, st).Ok? {
      var next := Accept(b, data, s).value;
      AcceptAfterSpare(b, data, next, ts, last, 6, crc);
      AcceptFirst(b, data, next);
      assert next.at + |EncodeTrees(ts) + EncodeChecked(last, 6, crc)| == |data|;
      assert Tell(b, [last], next.st) == match OnMessage(b, last.body, next.st) case Err(_) => None case Ok(after) => Some(after) by {
        assert [last][1..] == [];
      }
    }
    assert [m, last][1..] == [last];
  }

  lemma {:induction false} AcceptFirst(b: Behaviour, data: seq<byte>, s: Between)
    requires s.at < |data|
    ensures AcceptAll(b, data, s)
            == match Accept(b, data, s)
               case None => None
               case Some(next) =>
                 if next.at == |data| then Some((1, next.st))
                 else
                   match AcceptAll(b, data, next)
                   case None => None
                   case Some((k, after)) => Some((k + 1, after))
  {
    hide Accept;
  }

  /** Where the two messages stand: the second one's check value begins before its own header if anything is spare. */
  lemma {:induction false} SpareSpans(m: Draft, ts: seq<Tlv>, last: Draft, crc: seq<byte>)
    requires Sendable(m) && Sendable(last) && AllWritable(ts) && |ts| <= 9 && |crc| == 2
    ensures var spans := Spans(WithSpare(m, ts, last, crc), 0, 0);
            && |spans| == 2
            && spans[0].m.n == 6 + |ts| && spans[0].m.body == m.body
            && spans[1].m.n == 6 && spans[1].m.body == last.body
            && spans[1].header - spans[1].from == |EncodeTrees(ts)|
            && (spans[1].from < spans[1].header <==> ts != [])
  {
    hide EncodeTrees, MessageAt, CheckedPart, EncodeChecked, Spans, ParseTrees, CheckBytes, HeaderAt;
    var n := 6 + |ts|;
    var data, first := WithSpare(m, ts, last, crc), EncodeAnnouncing(m, n);
    var spare, rest := EncodeTrees(ts), EncodeChecked(last, 6, crc);
    assert At(data, 0, data);
    AtParts(data, 0, first, spare + rest);
    AtParts(data, |first|, spare, rest);
    MessageRoundTrip(data, 0, m, n, CheckBytes(m, n));
    TreesRoundTrip(data, |first|, ts);
    MessageRoundTrip(data, |first| + |spare|, last, 6, crc);
    SpareTakesRoom(data, |first|, |ts|);
    ParseNone(data, 0);
    SpansStep(data, 0, 0);
    SpansStep(data, |first|, |ts|);
    NoSpans(data, 0);
  }

  lemma {:induction false} SpansStep(data: seq<byte>, at: nat, owed: nat)
    requires at < |data| && ParseTrees(data, at, owed).Trees?
    requires MessageAt(data, ParseTrees(data, at, owed).next).Some?
    ensures var header := ParseTrees(data, at, owed).next; var m := MessageAt(data, header).value;
            Spans(data, at, owed) == [Span(at, header, m)] + Spans(data, m.next, m.n - 6)
  {
    hide MessageAt, ParseTrees;
  }

  /**
   A check value that does not cover its own message alone: with the check value of the spare
   elements and the message together the payload is accepted, if the callback accepts both bodies.
   */
  lemma {:induction false} StraddlingAccepted(b: Behaviour, m: Draft, ts: seq<Tlv>, last: Draft, st: State)
    requires Sendable(m) && Sendable(last) && AllWritable(ts) && 1 <= |ts| <= 9
    ensures var data := WithSpare(m, ts, last, StraddlingBytes(ts, last)); var spans := Spans(data, 0, 0);
            && AcceptPayload(b, data, st)
               == (match Tell(b, [m, last], st)
                   case None => None
                   case Some(after) => Some((2, after)))
            && |spans| == 2 && spans[0].m.n == 6 + |ts| > 6 && spans[1].from < spans[1].header
  {
    hide AcceptPayload, WithSpare, Straddled, Tell, Spans, Crc.Crc16, Le;
    var crc := StraddlingBytes(ts, last);
    CrcBytesValue(Crc.Crc16(Straddled(ts, last)));
    SpareAccepted(b, m, ts, last, crc, st);
    SpareSpans(m, ts, last, crc);
  }

  /**
   A message with its own right check value, behind a complete list with spare elements, is
   accepted only if the spare elements leave the check value's register as it was at the
   beginning, which no elements with an odd number of one bits do.
   */
  lemma {:induction false} RightlyCheckedRefused(b: Behaviour, m: Draft, ts: seq<Tlv>, last: Draft, st: State)
    requires Sendable(m) && Sendable(last) && AllWritable(ts) && |ts| <= 9
    ensures var data := WithSpare(m, ts, last, CheckBytes(last, 6));
            && (AcceptPayload(b, data, st).Some? <==>
                  Crc.Update(Crc.INIT, EncodeTrees(ts)) == Crc.INIT && Tell(b, [m, last], st).Some?)
            && (Crc.OddOnes(EncodeTrees(ts)) ==> AcceptPayload(b, data, st).None?)
  {
    hide AcceptPayload, WithSpare, Tell, EncodeTrees, CheckedPart, CheckBytes, Crc.Crc16, Crc.Update, Crc.OddOnes, Le;
    SpareAccepted(b, m, ts, last, CheckBytes(last, 6), st);
    CheckBytesValue(last, 6);
    Crc.SameWithFront(EncodeTrees(ts), CheckedPart(last, 6));
    if Crc.OddOnes(EncodeTrees(ts)) {
      Crc.OddFrontShows(EncodeTrees(ts), CheckedPart(last, 6));
    }
  }

  /** For example, one empty string to spare, which is the byte 01, is enough. */
  lemma {:induction false} EmptyStringSpare(b: Behaviour, m: Draft, last: Draft, st: State)
    requires Sendable(m) && Sendable(last)
    ensures Writable(Prim(String, [])) && EncodeTrees([Prim(String, [])]) == [0x01]
    ensures AcceptPayload(b, EncodeAnnouncing(m, 7) + ([0x01] + EncodeMessage(last)), st).None?
  {
    hide AcceptPayload, EncodeChecked, EncodeTrees, CheckBytes, Writable, Sendable, Crc.OddOnes, Crc.Update;
    var ts := [Prim(String, [])];
    OneByte();
    OneIsOdd();
    RightlyCheckedRefused(b, m, ts, last, st);
    assert WithSpare(m, ts, last, CheckBytes(last, 6)) == EncodeAnnouncing(m, 7) + ([0x01] + EncodeMessage(last));
  }

  lemma {:induction false} OneByte()
    ensures Writable(Prim(String, [])) && EncodeTrees([Prim(String, [])]) == [0x01]
  {
    assert Headers.Pow16(0) == 1 && Headers.Pow16(1) == 16 && Headers.Tail(0, 0) == [];
    assert Headers.FittingBytes(0, 1) == 1;
    assert Headers.Encode(String, 0) == [0x01];
    hide Headers.Encode;
    var t := Prim(String, []);
    assert [t][1..] == [];
    NoTrees();
    assert EncodeTree(t) == [0x01];
    assert EncodeTrees([t]) == EncodeTree(t) + EncodeTrees([]);
  }

  lemma {:induction false} OneIsOdd()
    ensures Crc.OddOnes([0x01])
  {
    assert [0x01][..0] == [];
    assert Crc.Odd(0x01);
  }
}
