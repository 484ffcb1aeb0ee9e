/** Reading the messages of a frame as steps of the cursor, on any data: what is heard, and where reading stops. */
module FrameRuns {
  import opened Bytes
  import opened Errors
  import opened Tlv
  import opened Spec = Cursors
  import opened Steps
  import opened Callbacks
  import opened Messages
  import Crc
  import opened Deframing
  import opened Message

  /** Opens the list of a message and drops its transaction ID. */
  function IdStep(data: seq<byte>, c: Cursor): Step<nat> {
    var n :- Spec.ReadList(data, c);
    var id :- Element(data, n.0, String);
    Step(Dropped(id.0), Ok(n.1))
  }

  /** Reads a message up to its body; the result is its number of elements. */
  function HeadStep(data: seq<byte>, c: Cursor): Step<nat> {
    var n :- IdStep(data, c);
    var group :- NumberStep(data, n.0, 1, 1);
    var abort :- NumberStep(data, group.0, 1, 1);
    var body :- FieldStep(data, abort.0, List, true);
    Step(body.0, Ok(n.1))
  }

  /** Hands the body in use to the callback and skips what it has left. */
  function HandStep(b: Behaviour, data: seq<byte>, c: Cursor, st: State): Step<State>
    requires Sensible(b)
  {
    var told :- CallbackStep(b, data, c, 1, st);
    var flushed :- Flush(data, told.0);
    Step(flushed.0, Ok(told.1))
  }

  /** Reads the check value and the end, and compares with the bytes since `since`. */
  function TailStep(data: seq<byte>, c: Cursor, since: nat): Step<()> {
    var crc :- NumberStep(data, c, 2, 2);
    var end :- EndStep(data, crc.0);
    if !(since <= c.at <= |data|) then DataOver
    else
      var computed := Crc.Crc16(data[since..c.at]);
      if Le(crc.1) == computed then Step(Dropped(end.0), Ok(()))
      else Step(Dropped(end.0), Err(ChecksumMismatch(Be(crc.1), computed)))
  }

  // ------------------------------------------------------ steps, exactly

  lemma {:induction false} IdStepExact(data: seq<byte>, at: nat, owed: nat)
    requires at <= |data|
    ensures var s, id := IdStep(data, Outside(at, owed)), IdFrom(data, at, owed);
            && (!s.IsFailure() ==>
                  var d, n := s.cursor, s.result.value;
                  && n > 0
                  && d == InList(d.at, d.owedBytes, n - 1)
                  && (id.Some? <==> d.at + d.owedBytes <= |data|)
                  && (id.Some? ==> id.value == (n, d.at + d.owedBytes)))
            && (id.Some? ==> !s.IsFailure())
  {
    hide HeaderAt, ParseTrees, ElementOf, Spec.ReadList, ValueAt, Spec.Drop;
    ListFromOutside(data, at, owed);
    var list := Spec.ReadList(data, Outside(at, owed));
    if !list.IsFailure() {
      StringInList(data, list.cursor.at, 0, list.result.value);
    }
  }

  /** Reading a message up to its body succeeds exactly if a message head is there, and leaves the body in use. */
  lemma {:induction false} HeadStepExact(data: seq<byte>, at: nat, owed: nat)
    requires at <= |data|
    ensures var s, head := HeadStep(data, Outside(at, owed)), HeadFrom(data, at, owed);
            && (!s.IsFailure() <==> head.Some?)
            && (head.Some? ==> s == Step(InBody(head.value.1, head.value.0), Ok(head.value.0)))
  {
    hide HeaderAt, ElementOf, NumberStep, ValueAt, IdFrom, IdStep, HeadFrom;
    HeadAfterId(data, at, owed);
    IdStepExact(data, at, owed);
    var id := IdStep(data, Outside(at, owed));
    if !id.IsFailure() {
      var n, c := id.result.value, id.cursor;
      NumberInList(data, c.at, c.owedBytes, n - 1, 1, 1);
      BeyondData(data, c.at + c.owedBytes);
      var group := NumberStep(data, c, 1, 1);
      if !group.IsFailure() {
        NumberInList(data, group.cursor.at, 0, n - 2, 1, 1);
        var abort := NumberStep(data, group.cursor, 1, 1);
        if !abort.IsFailure() {
          ElementInList(data, abort.cursor.at, 0, n - 3, List);
        }
      }
    }
  }

  /**
   Reading the end of a message succeeds exactly if two elements are left, a two-byte check
   value and the end marker, and the value is that of the bytes since `since`.
   */
  lemma {:induction false} TailStepExact(data: seq<byte>, e: nat, m: nat, since: nat)
    requires since <= e <= |data|
    ensures var s, tail := TailStep(data, InList(e, 0, m), since), TailAt(data, e);
            && (!s.IsFailure() <==> m >= 2 && tail.Some? && Le(tail.value.0) == Crc.Crc16(data[since..e]))
            && (!s.IsFailure() ==> m >= 2 && s.cursor == Outside(tail.value.1, m - 2))
  {
    hide HeaderAt, ValueAt, EndMarker, NumberStep, Crc.Crc16, Le, Be;
    NumberInList(data, e, 0, m, 2, 2);
    var crc := NumberStep(data, InList(e, 0, m), 2, 2);
    if !crc.IsFailure() {
      EndInList(data, crc.cursor.at, m - 1);
    }
  }

  /** Reading one message: where it ends or fails, whether the callback got it, and what that has observed then. */
  datatype Told = Told(step: Step<State>, heard: nat, past: Past)

  function MessageStep(b: Behaviour, data: seq<byte>, c: Cursor, st: State): Told
    requires Sensible(b)
  {
    var head := HeadStep(data, c);
    if head.IsFailure() then Told(head.PropagateFailure(), 0, st.heard)
    else
      var hand := HandStep(b, data, head.cursor, st);
      var past := HeardThen(b, data, head.cursor, 1, st.heard);
      if hand.IsFailure() then Told(hand, 1, past)
      else
        var tail := TailStep(data, hand.cursor, c.at);
        if tail.IsFailure() then Told(tail.PropagateFailure(), 1, past)
        else Told(Step(tail.cursor, hand.result), 1, past)
  }

  /**
   How reading a frame ends: with an error or without, after how many messages, after which byte of the
   payload, unless all of the frame has been read, and what the callback has observed then.
   */
  datatype Halt = Halt(failure: Option<Error>, heard: nat, at: Option<nat>, past: Past)

  /** Reading up to `n` more messages; `verdict` is that of the transport layer. */
  function RunOf(b: Behaviour, data: seq<byte>, verdict: Verdict, c: Cursor, st: State, heard: nat, n: nat): Halt
    requires Sensible(b)
    decreases n
  {
    if n == 0 || (heard > 0 && verdict.Ended? && c.at == |data|) then Halt(None, heard, None, st.heard)
    else
      var told := MessageStep(b, data, c, st);
      match told.step
      case DataOver => Halt(Some(Io(PastEnd(verdict))), heard + told.heard, None, told.past)
      case Step(d, Err(e)) => Halt(Some(e), heard + told.heard, Some(d.at), told.past)
      case Step(d, Ok(next)) => RunOf(b, data, verdict, d, next, heard + told.heard, n - 1)
  }

  /** Reading a frame with this payload. No message is empty, so there are not more of them than bytes. */
  function HaltOf(b: Behaviour, data: seq<byte>, verdict: Verdict, st: State): Halt
    requires Sensible(b)
  {
    RunOf(b, data, verdict, Outside(0, 0), st, 0, |data| + 1)
  }

  /** What has been heard and observed is a beginning of what reading the whole frame would give. */
  ghost predicate Begins(b: Behaviour, data: seq<byte>, verdict: Verdict, st: State, heard: nat, past: Past)
    requires Sensible(b)
  {
    var halt := HaltOf(b, data, verdict, st);
    heard <= halt.heard && st.heard <= past <= halt.past
  }

  lemma {:induction false} PastGrows(b: Behaviour, data: seq<byte>, c: Cursor, st: State)
    requires Sensible(b)
    ensures st.heard <= MessageStep(b, data, c, st).past
    ensures var told := MessageStep(b, data, c, st);
            told.step.Step? && told.step.result.Ok? ==> told.step.result.value.heard == told.past
  {
    hide HeadStep, TailStep, Flush, Run, HeardThen;
    var head := HeadStep(data, c);
    if !head.IsFailure() {
      HeardMore(b, data, head.cursor, 1, st.heard);
      HandHears(b, data, head.cursor, st);
    }
  }

  lemma {:induction false} HandHears(b: Behaviour, data: seq<byte>, c: Cursor, st: State)
    requires Sensible(b)
    ensures var hand := HandStep(b, data, c, st);
            !hand.IsFailure() ==> hand.result.value.heard == HeardThen(b, data, c, 1, st.heard)
  {
    hide Flush, Run;
  }

  /** Reading on, nothing that was heard or observed is lost. */
  lemma {:induction false} RunGrows(b: Behaviour, data: seq<byte>, verdict: Verdict, c: Cursor, st: State, heard: nat, n: nat)
    requires Sensible(b)
    ensures var halt := RunOf(b, data, verdict, c, st, heard, n); heard <= halt.heard && st.heard <= halt.past
    decreases n
  {
    hide MessageStep;
    if n > 0 && !(heard > 0 && verdict.Ended? && c.at == |data|) {
      PastGrows(b, data, c, st);
      var told := MessageStep(b, data, c, st);
      if told.step.Step? && told.step.result.Ok? {
        RunGrows(b, data, verdict, told.step.cursor, told.step.result.value, heard + told.heard, n - 1);
      }
    }
  }

  /** In particular nothing of the message that comes next. */
  lemma {:induction false} RunGoesOn(b: Behaviour, data: seq<byte>, verdict: Verdict, c: Cursor, st: State, heard: nat, n: nat)
    requires Sensible(b) && n > 0 && !(heard > 0 && verdict.Ended? && c.at == |data|)
    ensures var halt, told := RunOf(b, data, verdict, c, st, heard, n), MessageStep(b, data, c, st);
            heard + told.heard <= halt.heard && st.heard <= told.past <= halt.past
  {
    hide MessageStep;
    RunFirst(b, data, verdict, c, st, heard, n);
    PastGrows(b, data, c, st);
    var told := MessageStep(b, data, c, st);
    if told.step.Step? && told.step.result.Ok? {
      RunGrows(b, data, verdict, told.step.cursor, told.step.result.value, heard + told.heard, n - 1);
    }
  }

  lemma {:induction false} RunFirst(b: Behaviour, data: seq<byte>, verdict: Verdict, c: Cursor, st: State, heard: nat, n: nat)
    requires Sensible(b) && n > 0 && !(heard > 0 && verdict.Ended? && c.at == |data|)
    ensures var told := MessageStep(b, data, c, st);
            RunOf(b, data, verdict, c, st, heard, n)
            == match told.step
               case DataOver => Halt(Some(Io(PastEnd(verdict))), heard + told.heard, None, told.past)
               case Step(d, Err(e)) => Halt(Some(e), heard + told.heard, Some(d.at), told.past)
               case Step(d, Ok(next)) => RunOf(b, data, verdict, d, next, heard + told.heard, n - 1)
  {
    hide MessageStep;
  }

  lemma {:induction false} RunOver(b: Behaviour, data: seq<byte>, verdict: Verdict, c: Cursor, st: State, heard: nat, n: nat)
    requires Sensible(b) && heard > 0 && verdict.Ended? && c.at == |data|
    ensures RunOf(b, data, verdict, c, st, heard, n) == Halt(None, heard, None, st.heard)
  {
  }
}
