/** The SML messages that fill the payload of a frame. */
module Messages {
  import opened Bytes
  import opened Errors
  import opened Tlv
  import opened Spec = Cursors
  import opened Walker
  import opened Callbacks
  import opened Steps
  import Crc

  // ---------------------------------------------- what a message looks like

  predicate IsValue(t: Tlv, ty: TlvType, min: nat, max: nat) {
    t.Prim? && t.ty == ty && min <= |t.payload| <= max
  }

  /** Transaction ID, group number, abort flag, and a body of two elements. */
  predicate IsHead(trees: seq<Tlv>) {
    && |trees| == 4
    && trees[0].Prim? && trees[0].ty == String && trees[0].payload != []
    && IsValue(trees[1], Unsigned, 1, 1)
    && IsValue(trees[2], Unsigned, 1, 1)
    && trees[3].Node? && |trees[3].items| == 2
  }

  /**
   A message: its number of elements, its body, the position of its check value and
   that value, and the position after its end marker.
   */
  datatype Message = Message(n: nat, body: seq<Tlv>, e: nat, crc: seq<byte>, next: nat)

  /** The check value at `e` and the position after the end marker that follows it. */
  function TailAt(data: seq<byte>, e: nat): Option<(seq<byte>, nat)> {
    var crc :- ValueAt(data, e, Unsigned, 2, 2);
    var marker := HeaderAt(data, crc.1);
    if marker.Bad? && marker.error == EndOfSmlMessage then Some((crc.0, marker.next)) else None
  }

  /**
   The message whose list header stands at `p`: the list has at least six elements, the first
   four are a head, the fifth is a two-byte number and an end marker stands for the sixth.
   */
  function MessageAt(data: seq<byte>, p: nat): (m: Option<Message>)
    ensures m.Some? ==> m.value.n >= 6 && p < m.value.e < m.value.next <= |data|
  {
    var h := HeaderAt(data, p);
    if !(h.Header? && h.ty == List && h.len >= 6) then None
    else
      var head := ParseTrees(data, h.next, 4);
      if !(head.Trees? && IsHead(head.items)) then None
      else
        var tail :- TailAt(data, head.next);
        Some(Message(h.len, head.items[3].items, head.next, tail.0, tail.1))
  }

  /** Where reading stands between two messages, and what the callback remembers. */
  datatype Between = Between(at: nat, owed: nat, st: State)

  /**
   Reading one more message. It may be preceded by `owed` elements that the message before it
   had to spare. The check value must be that of all bytes from `at` up to it, in little-endian order.
   */
  function Accept(b: Behaviour, data: seq<byte>, s: Between): (r: Option<Between>)
    ensures r.Some? ==> s.at < r.value.at <= |data|
  {
    if s.at > |data| then None
    else
      var spare := ParseTrees(data, s.at, s.owed);
      if !spare.Trees? then None
      else
        var m :- MessageAt(data, spare.next);
        if Le(m.crc) != Crc.Crc16(data[s.at..m.e]) then None
        else
          match OnMessage(b, m.body, s.st)
          case Err(_) => None
          case Ok(st) => Some(Between(m.next, m.n - 6, st))
  }

  /** A run of messages up to the end of the data: their number and what the callback remembers then. */
  function AcceptAll(b: Behaviour, data: seq<byte>, s: Between): Option<(nat, State)>
    decreases |data| - s.at
  {
    if s.at == |data| then Some((0, s.st))
    else
      var next :- Accept(b, data, s);
      var rest :- AcceptAll(b, data, next);
      Some((rest.0 + 1, rest.1))
  }

  /** The payload of a valid frame: at least one message, and nothing after the last one. */
  function AcceptPayload(b: Behaviour, data: seq<byte>, st: State): Option<(nat, State)> {
    if data == [] then None else AcceptAll(b, data, Between(0, 0, st))
  }

  // -------------------------------------------------- reading step by step

  /** The payload of the value of type `ty` at `p`, of `min` to `max` bytes, and the position after it. */
  function ValueAt(data: seq<byte>, p: nat, ty: TlvType, min: nat, max: nat): (r: Option<(seq<byte>, nat)>)
    ensures r.Some? ==> p < r.value.1 <= |data| && min <= |r.value.0| <= max
  {
    var t :- FirstTree(data, p);
    if IsValue(t.0, ty, min, max) then Some((t.0.payload, t.1)) else None
  }

  /** The number of elements of the message at `p` and the position of its body's two elements. */
  function HeadAt(data: seq<byte>, p: nat): (r: Option<(nat, nat)>)
    ensures r.Some? ==> r.value.0 >= 4 && p < r.value.1 <= |data|
  {
    var h := HeaderAt(data, p);
    if !(h.Header? && h.ty == List && h.len >= 4) then None
    else
      var id :- ValueAt(data, h.next, String, 1, |data|);
      HeadRest(data, h.len, id.1)
  }

  /** The same after the transaction ID, from which position `p` follows. */
  function HeadRest(data: seq<byte>, n: nat, p: nat): (r: Option<(nat, nat)>)
    ensures r.Some? ==> r.value.0 == n && p < r.value.1 <= |data|
  {
    var group :- ValueAt(data, p, Unsigned, 1, 1);
    var abort :- ValueAt(data, group.1, Unsigned, 1, 1);
    var body := HeaderAt(data, abort.1);
    if body.Header? && body.ty == List && body.len == 2 then Some((n, body.next)) else None
  }

  function FourTrees(data: seq<byte>, p: nat): Option<(seq<Tlv>, nat)> {
    var a :- FirstTree(data, p);
    var b :- FirstTree(data, a.1);
    var c :- FirstTree(data, b.1);
    var d :- FirstTree(data, c.1);
    Some(([a.0, b.0, c.0, d.0], d.1))
  }

  lemma {:induction false} ParseFour(data: seq<byte>, p: nat)
    requires p <= |data|
    ensures match FourTrees(data, p)
            case Some((trees, q)) => ParseTrees(data, p, 4) == Trees(trees, q)
            case None => !ParseTrees(data, p, 4).Trees?
  {
    hide ParseTrees, FirstTree;
    ParseFirst(data, p, 4);
    var a := FirstTree(data, p);
    if a.Some? {
      ParseFirst(data, a.value.1, 3);
      var b := FirstTree(data, a.value.1);
      if b.Some? {
        ParseFirst(data, b.value.1, 2);
        var c := FirstTree(data, b.value.1);
        if c.Some? {
          ParseFirst(data, c.value.1, 1);
          var d := FirstTree(data, c.value.1);
          if d.Some? {
            ParseNone(data, d.value.1);
          }
        }
      }
    }
  }

  /** A tree that is a list of two, in terms of its header. */
  lemma {:induction false} PairAt(data: seq<byte>, p: nat)
    ensures var t, h := FirstTree(data, p), HeaderAt(data, p);
            if h.Header? && h.ty == List && h.len == 2 && ParseTrees(data, h.next, 2).Trees? then
              t == Some((Node(ParseTrees(data, h.next, 2).items), ParseTrees(data, h.next, 2).next))
            else t.Some? ==> !(t.value.0.Node? && |t.value.0.items| == 2)
  {
    hide HeaderAt, ParseTrees;
  }

  /** Reading a message step by step up to its body, and then the body, is parsing its first four elements. */
  lemma {:induction false} HeadIsGrammar(data: seq<byte>, p: nat)
    ensures var h, head := HeaderAt(data, p), HeadAt(data, p);
            if head.Some? && ParseTrees(data, head.value.1, 2).Trees? then
              && h.Header? && h.ty == List && h.len == head.value.0
              && var four, body := ParseTrees(data, h.next, 4), ParseTrees(data, head.value.1, 2);
              && four.Trees? && IsHead(four.items) && four.items[3] == Node(body.items) && four.next == body.next
            else
              h.Header? && h.ty == List && h.len >= 4 ==>
                var four := ParseTrees(data, h.next, 4);
                !(four.Trees? && IsHead(four.items))
  {
    hide HeaderAt, ParseTrees, FirstTree;
    var h := HeaderAt(data, p);
    if h.Header? && h.ty == List && h.len >= 4 {
      ParseFour(data, h.next);
      PayloadFits(data, h.next);
      var abort := AfterThree(data, h.next);
      if abort.Some? {
        PairAt(data, abort.value);
      }
    }
  }

  function AfterThree(data: seq<byte>, p: nat): Option<nat> {
    var id :- ValueAt(data, p, String, 1, |data|);
    var group :- ValueAt(data, id.1, Unsigned, 1, 1);
    var abort :- ValueAt(data, group.1, Unsigned, 1, 1);
    Some(abort.1)
  }

  lemma {:induction false} PayloadFits(data: seq<byte>, p: nat)
    ensures var t := FirstTree(data, p); t.Some? && t.value.0.Prim? ==> |t.value.0.payload| <= |data|
  {
    hide HeaderAt, ParseTrees;
  }

  // ------------------------------------------------ steps of the cursor

  /** A cursor in a message list with `m` elements left. */
  function InList(at: nat, owed: nat, m: nat): Cursor {
    Cursor(at, owed, 0, [Handle(List, m)])
  }

  /** The message list with an element in use. */
  function InElement(at: nat, m: nat, ty: TlvType, len: nat): Cursor {
    Cursor(at, 0, 0, [Handle(List, m), Handle(ty, len)])
  }

  lemma {:induction false} NextInList(data: seq<byte>, at: nat, owed: nat, m: nat)
    ensures var s := Next(data, InList(at, owed, m)); var p := at + owed;
            if m == 0 then s == Step(InList(at, owed, m), Ok(None))
            else if p > |data| then s.DataOver?
            else
              match HeaderAt(data, p)
              case RanOut => s.DataOver?
              case Bad(e, q) => s == Step(InList(q, 0, m), Err(e))
              case Header(ty, len, q) =>
                && s.Step?
                && if ty == String && len == 0 then s == Step(InList(q, 0, m - 1), Ok(Some(NoneItem)))
                   else if ty.Other? then s.result.Err? && s.result.error == UnsupportedTlvType(ty.raw)
                   else s == Step(InElement(q, m - 1, ty, len), Ok(Some(Item(ty, len))))
  {
    hide HeaderAt;
    assert [Handle(List, m)][..0] == [];
    if at + owed <= |data| {
      SkipNone(data, at + owed);
    }
  }

  lemma {:induction false} ElementInList(data: seq<byte>, at: nat, owed: nat, m: nat, ty: TlvType)
    requires !ty.Other?
    ensures var s, p := ElementOf(data, InList(at, owed, m), ty), at + owed;
            && (s.Step? && s.result.Ok? <==>
                  && m > 0
                  && HeaderAt(data, p).Header? && HeaderAt(data, p).ty == ty
                  && !(ty == String && HeaderAt(data, p).len == 0))
            && (s.Step? && s.result.Ok? ==>
                  && m > 0
                  && s.result.value == HeaderAt(data, p).len
                  && s.cursor == InElement(HeaderAt(data, p).next, m - 1, ty, s.result.value))
  {
    hide HeaderAt, Next;
    NextInList(data, at, owed, m);
    BeyondData(data, at + owed);
  }

  lemma {:induction false} BeyondData(data: seq<byte>, p: nat)
    ensures p > |data| ==> HeaderAt(data, p).RanOut?
  {
  }

  /** Opening an element and dropping it unread. */
  lemma {:induction false} StringInList(data: seq<byte>, at: nat, owed: nat, m: nat)
    ensures var s, v := ElementOf(data, InList(at, owed, m), String), ValueAt(data, at + owed, String, 1, |data|);
            && (s.Step? && s.result.Ok? ==>
                  && m > 0
                  && Drop(s.cursor) == InList(s.cursor.at, s.result.value, m - 1)
                  && (v.Some? <==> s.cursor.at + s.result.value <= |data|)
                  && (v.Some? ==> v.value.1 == s.cursor.at + s.result.value))
            && (m > 0 && v.Some? ==> s.Step? && s.result.Ok?)
  {
    hide HeaderAt, ElementOf, ParseTrees;
    ElementInList(data, at, owed, m, String);
    if m > 0 {
      assert [Handle(List, m - 1), Handle(String, 0)][..1] == [Handle(List, m - 1)];
    }
  }

  lemma {:induction false} NumberInList(data: seq<byte>, at: nat, owed: nat, m: nat, min: nat, max: nat)
    ensures var s, v := NumberStep(data, InList(at, owed, m), min, max), ValueAt(data, at + owed, Unsigned, min, max);
            && (s.Step? && s.result.Ok? <==> m > 0 && v.Some?)
            && (s.Step? && s.result.Ok? ==> m > 0 && s.cursor == InList(v.value.1, 0, m - 1) && s.result.value == v.value.0)
  {
    hide HeaderAt, ElementOf, ParseTrees;
    ElementInList(data, at, owed, m, Unsigned);
    if m > 0 {
      assert [Handle(List, m - 1), Handle(Unsigned, 0)][..1] == [Handle(List, m - 1)];
      assert [Handle(List, m - 1)] + [Handle(Unsigned, 0)] == [Handle(List, m - 1), Handle(Unsigned, 0)];
    }
  }

  lemma {:induction false} EndInList(data: seq<byte>, at: nat, m: nat)
    ensures var s, h := EndMarker(data, InList(at, 0, m)), HeaderAt(data, at);
            && (s.Step? && s.result.Ok? <==> m > 0 && h.Bad? && h.error == EndOfSmlMessage)
            && (s.Step? && s.result.Ok? ==> m > 0 && s.cursor == InList(h.next, 0, m - 1))
  {
    hide HeaderAt, Next;
    NextInList(data, at, 0, m);
    BeyondData(data, at);
  }

  /** Between two messages only spare elements are owed. */
  function Outside(at: nat, owed: nat): Cursor {
    Cursor(at, 0, owed, [])
  }

  lemma {:induction false} ListFromOutside(data: seq<byte>, at: nat, owed: nat)
    requires at <= |data|
    ensures var s, spare := ReadList(data, Outside(at, owed)), ParseTrees(data, at, owed);
            && (s.Step? && s.result.Ok? <==>
                  spare.Trees? && HeaderAt(data, spare.next).Header? && HeaderAt(data, spare.next).ty == List)
            && (s.Step? && s.result.Ok? ==>
                  && s.result.value == HeaderAt(data, spare.next).len
                  && s.cursor == InList(HeaderAt(data, spare.next).next, 0, s.result.value))
  {
    hide HeaderAt, ParseTrees, SkipFlat;
    FlatIsDescent(data, at, owed);
    assert [] + [Handle(List, 0)] == [Handle(List, 0)];
  }

  /** Where the body of the message begins that follows `owed` spare elements, and its number of elements. */
  function HeadFrom(data: seq<byte>, at: nat, owed: nat): (r: Option<(nat, nat)>)
    ensures r.Some? ==> r.value.0 >= 4 && r.value.1 <= |data|
  {
    if at > |data| then None
    else
      var spare := ParseTrees(data, at, owed);
      if spare.Trees? then HeadAt(data, spare.next) else None
  }

  /** The number of elements of that message, if there are any, and the position after the first, its transaction ID. */
  function IdFrom(data: seq<byte>, at: nat, owed: nat): Option<(nat, nat)> {
    if at > |data| then None
    else
      var spare := ParseTrees(data, at, owed);
      if !spare.Trees? then None
      else
        var h := HeaderAt(data, spare.next);
        if !(h.Header? && h.ty == List && h.len > 0) then None
        else
          var id :- ValueAt(data, h.next, String, 1, |data|);
          Some((h.len, id.1))
  }

  lemma {:induction false} HeadAfterId(data: seq<byte>, at: nat, owed: nat)
    ensures var head, id := HeadFrom(data, at, owed), IdFrom(data, at, owed);
            head == if id.None? || id.value.0 < 4 then None else HeadRest(data, id.value.0, id.value.1)
  {
    hide HeaderAt, ParseTrees, ValueAt;
  }

  /** A message whose body is in use. */
  function InBody(b: nat, n: nat): Cursor
    requires n >= 4
  {
    InElement(b, n - 4, List, 2)
  }
}
