/** Where the messages of a payload stand, which bytes their check values cover, and whether their lists are complete. */
module MessageLists {
  import opened Bytes
  import opened Errors
  import opened Tlv
  import opened Callbacks
  import opened Messages
  import Crc
  import Walker

  /** A message, where its list header stands, and where digesting for its check value began. */
  datatype Span = Span(from: nat, header: nat, m: Messages.Message)

  /** The messages from position `at` on, after `owed` spare elements. */
  function Spans(data: seq<byte>, at: nat, owed: nat): seq<Span>
    decreases |data| - at
  {
    if at >= |data| then []
    else
      var spare := ParseTrees(data, at, owed);
      if !spare.Trees? then []
      else
        match MessageAt(data, spare.next)
        case None => []
        case Some(m) => [Span(at, spare.next, m)] + Spans(data, m.next, m.n - 6)
  }

  /** What the last of the messages has announced beyond six elements, or `owed` if there is none. */
  function LeftOver(spans: seq<Span>, owed: nat): nat {
    if spans != [] && spans[|spans| - 1].m.n >= 6 then spans[|spans| - 1].m.n - 6 else owed
  }

  /** Reading on from `s`: its first message and the ones after it. */
  lemma {:induction false} SpansFirst(b: Behaviour, data: seq<byte>, s: Between)
    requires s.at != |data| && Accept(b, data, s).Some?
    ensures var next, spans := Accept(b, data, s).value, Spans(data, s.at, s.owed);
            && spans != [] && spans[1..] == Spans(data, next.at, next.owed)
            && var span := spans[0];
            && span.from == s.at <= span.m.e <= |data| && span.m.n >= 6
            && next.at == span.m.next && next.owed == span.m.n - 6
            && ParseTrees(data, s.at, s.owed) == Trees(ParseTrees(data, s.at, s.owed).items, span.header)
            && MessageAt(data, span.header) == Some(span.m)
            && Le(span.m.crc) == Crc.Crc16(data[span.from..span.m.e])
  {
    hide MessageAt, ParseTrees, OnMessage, Crc.Crc16, Le;
  }

  /** Where digesting for message number `i` began, and how many spare elements come before it. */
  function StartOf(spans: seq<Span>, at: nat, i: nat): nat
    requires i < |spans|
  {
    if i == 0 then at else spans[i - 1].m.next
  }

  function SpareBefore(spans: seq<Span>, owed: nat, i: nat): int
    requires i < |spans|
  {
    if i == 0 then owed else spans[i - 1].m.n - 6
  }

  /** Message number `i` has the right check value, over its own bytes alone if nothing is spare before it. */
  predicate RightlyChecked(data: seq<byte>, spans: seq<Span>, at: nat, owed: nat, i: nat)
    requires i < |spans|
  {
    var span := spans[i];
    && span.from == StartOf(spans, at, i) <= span.m.e <= |data|
    && Le(span.m.crc) == Crc.Crc16(data[span.from..span.m.e])
    && (span.from == span.header <==> SpareBefore(spans, owed, i) == 0)
  }

  /**
   In accepted data each check value is that of all bytes from the end of the message before
   up to it; these are the message's own bytes, from its list header on, if and only if the
   message before has announced exactly six elements.
   */
  lemma {:induction false} ChecksOf(b: Behaviour, data: seq<byte>, s: Between)
    requires AcceptAll(b, data, s).Some?
    ensures var spans := Spans(data, s.at, s.owed);
            && |spans| == AcceptAll(b, data, s).value.0
            && forall i :: 0 <= i < |spans| ==> RightlyChecked(data, spans, s.at, s.owed, i)
    decreases |data| - s.at
  {
    hide MessageAt, ParseTrees, OnMessage, Accept, Spans, Crc.Crc16, Le, RightlyChecked;
    var spans := Spans(data, s.at, s.owed);
    if s.at == |data| {
      NoSpans(data, s.owed);
    } else {
      SpansFirst(b, data, s);
      SpareTakesRoom(data, s.at, s.owed);
      var next := Accept(b, data, s).value;
      ChecksOf(b, data, next);
      forall i | 0 <= i < |spans|
        ensures RightlyChecked(data, spans, s.at, s.owed, i)
      {
        if i == 0 {
          FirstChecked(data, spans, s.at, s.owed);
        } else {
          LaterChecked(data, spans, s.at, s.owed, i);
        }
      }
    }
  }

  lemma {:induction false} NoSpans(data: seq<byte>, owed: nat)
    ensures Spans(data, |data|, owed) == []
  {
  }

  lemma {:induction false} FirstChecked(data: seq<byte>, spans: seq<Span>, at: nat, owed: nat)
    requires spans != [] && spans[0].from == at <= spans[0].m.e <= |data|
    requires Le(spans[0].m.crc) == Crc.Crc16(data[at..spans[0].m.e])
    requires spans[0].header == at <==> owed == 0
    ensures RightlyChecked(data, spans, at, owed, 0)
  {
  }

  lemma {:induction false} LaterChecked(data: seq<byte>, spans: seq<Span>, at: nat, owed: nat, i: nat)
    requires 0 < i < |spans| && spans[0].m.n >= 6
    requires RightlyChecked(data, spans[1..], spans[0].m.next, spans[0].m.n - 6, i - 1)
    ensures RightlyChecked(data, spans, at, owed, i)
  {
    hide Crc.Crc16, Le;
  }

  /** No tree is empty: parsing some of them moves on. */
  lemma {:induction false} SpareTakesRoom(data: seq<byte>, p: nat, n: nat)
    requires p <= |data| && ParseTrees(data, p, n).Trees?
    ensures ParseTrees(data, p, n).next == p <==> n == 0
  {
    hide HeaderAt;
  }

  /**
   The check values of a payload cover exactly their own messages if and only if every message
   but the last one has announced exactly six elements.
   */
  lemma {:induction false} EachCoversItself(b: Behaviour, data: seq<byte>, st: State)
    requires AcceptPayload(b, data, st).Some?
    ensures var spans := Spans(data, 0, 0);
            && |spans| == AcceptPayload(b, data, st).value.0
            && (forall i :: 0 <= i < |spans| ==>
                  && spans[i].from <= spans[i].m.e <= |data|
                  && Le(spans[i].m.crc) == Crc.Crc16(data[spans[i].from..spans[i].m.e]))
            && ((forall i :: 0 <= i < |spans| ==> spans[i].from == spans[i].header)
                <==> forall i :: 0 <= i < |spans| - 1 ==> spans[i].m.n == 6)
  {
    hide Spans, AcceptAll, Crc.Crc16, Le;
    ChecksOf(b, data, Between(0, 0, st));
    var spans := Spans(data, 0, 0);
    if forall i :: 0 <= i < |spans| ==> spans[i].from == spans[i].header {
      forall i | 0 <= i < |spans| - 1
        ensures spans[i].m.n == 6
      {
        assert RightlyChecked(data, spans, 0, 0, i + 1);
      }
    }
    if forall i :: 0 <= i < |spans| - 1 ==> spans[i].m.n == 6 {
      forall i | 0 <= i < |spans|
        ensures spans[i].from == spans[i].header
      {
        assert RightlyChecked(data, spans, 0, 0, i);
      }
    }
    forall i | 0 <= i < |spans|
      ensures spans[i].from <= spans[i].m.e <= |data|
      ensures Le(spans[i].m.crc) == Crc.Crc16(data[spans[i].from..spans[i].m.e])
    {
      assert RightlyChecked(data, spans, 0, 0, i);
    }
  }

  // ---------------------------------------------------------- complete lists

  /**
   From position `p` to its end the data is a run of complete message lists: each has as many
   elements as it announces, the end marker being the sixth.
   */
  predicate WholeLists(data: seq<byte>, p: nat)
    decreases |data| - p
  {
    p == |data|
    || (p < |data|
        && MessageAt(data, p).Some?
        && var m := MessageAt(data, p).value;
        var spare := ParseTrees(data, m.next, m.n - 6);
        spare.Trees? && WholeLists(data, spare.next))
  }

  lemma {:induction false} SpansHaveSix(b: Behaviour, data: seq<byte>, s: Between)
    requires AcceptAll(b, data, s).Some?
    ensures var spans := Spans(data, s.at, s.owed); spans != [] ==> spans[|spans| - 1].m.n >= 6
    decreases |data| - s.at
  {
    hide MessageAt, ParseTrees, OnMessage, Accept, Spans;
    if s.at == |data| {
      NoSpans(data, s.owed);
    } else {
      SpansFirst(b, data, s);
      var spans := Spans(data, s.at, s.owed);
      SpansHaveSix(b, data, Accept(b, data, s).value);
      assert spans[|spans| - 1] == if |spans| == 1 then spans[0] else spans[1..][|spans| - 2];
    }
  }

  /** Accepted data is a run of complete lists if and only if nothing is left over at its end. */
  lemma {:induction false} WholeUnlessLeftOver(b: Behaviour, data: seq<byte>, s: Between)
    requires AcceptAll(b, data, s).Some? && s.at <= |data|
    ensures var spare := ParseTrees(data, s.at, s.owed);
            spare.Trees? && WholeLists(data, spare.next) <==> LeftOver(Spans(data, s.at, s.owed), s.owed) == 0
    decreases |data| - s.at
  {
    hide MessageAt, ParseTrees, OnMessage, Accept, Spans, WholeLists;
    if s.at == |data| {
      NoSpans(data, s.owed);
      NothingAtEnd(data, s.owed);
    } else {
      SpansFirst(b, data, s);
      var next, spans := Accept(b, data, s).value, Spans(data, s.at, s.owed);
      WholeUnlessLeftOver(b, data, next);
      SpansHaveSix(b, data, s);
      WholeStep(data, spans[0].header);
      assert spans[|spans| - 1] == if |spans| == 1 then spans[0] else spans[1..][|spans| - 2];
    }
  }

  lemma {:induction false} NothingAtEnd(data: seq<byte>, owed: nat)
    ensures var spare := ParseTrees(data, |data|, owed);
            spare.Trees? && WholeLists(data, spare.next) <==> owed == 0
  {
  }

  lemma {:induction false} WholeStep(data: seq<byte>, p: nat)
    requires MessageAt(data, p).Some?
    ensures var m := MessageAt(data, p).value; var spare := ParseTrees(data, m.next, m.n - 6);
            WholeLists(data, p) <==> spare.Trees? && WholeLists(data, spare.next)
  {
    hide MessageAt, ParseTrees;
  }

  /**
   An accepted payload is a run of complete lists if and only if its last message has
   announced exactly six elements: the spare ones after it are never asked for.
   */
  lemma {:induction false} WholeIfLastHasSix(b: Behaviour, data: seq<byte>, st: State)
    requires AcceptPayload(b, data, st).Some?
    ensures var spans := Spans(data, 0, 0);
            && spans != []
            && (WholeLists(data, 0) <==> spans[|spans| - 1].m.n == 6)
  {
    hide MessageAt, OnMessage, Accept, Spans, WholeLists;
    var s := Between(0, 0, st);
    hide AcceptAll;
    SpansFirst(b, data, s);
    SpansHaveSix(b, data, s);
    WholeUnlessLeftOver(b, data, s);
    Walker.ParseNone(data, s.at);
  }
}
