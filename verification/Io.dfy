/** The raw byte source under the stack, and the outcome of polling a reader. */
module Io {
  import opened Bytes
  import opened Errors

  datatype Poll = Pending | Ready(count: nat) | Failed(error: IoError)

  /** What the driver does at one poll: it has nothing yet, gives up to `limit` bytes, or fails. */
  datatype Answer = Wait | Give(limit: nat) | Fault(ret: nat)

  /** What is left of a stream and a schedule, how often polling has failed, and whether it went on when no answer was left. */
  datatype Standing = Standing(pos: nat, schedule: seq<Answer>, faults: nat, cut: bool)

  predicate HasFault(answers: seq<Answer>) {
    exists i :: 0 <= i < |answers| && answers[i].Fault?
  }

  /** How many answers give something. */
  function Gifts(answers: seq<Answer>): nat {
    if answers == [] then 0
    else
      var last := answers[|answers| - 1];
      Gifts(answers[..|answers| - 1]) + if last.Give? && last.limit > 0 then 1 else 0
  }

  /**
   Polling some times leads from `a` to `b` in a stream of `length` bytes: the answers have been
   used up one by one, each that gives something has given a byte at least, as long as there
   was one, and polling has failed only if the driver has reported that, or is cut off.
   */
  predicate Leads(length: nat, a: Standing, b: Standing) {
    && |b.schedule| <= |a.schedule| && a.schedule[|a.schedule| - |b.schedule|..] == b.schedule
    && a.pos <= b.pos && a.faults <= b.faults && (a.cut ==> b.cut)
    && var used := a.schedule[..|a.schedule| - |b.schedule|];
    && (b.pos >= length || b.pos - a.pos >= Gifts(used))
    && (b.faults > a.faults ==> b.schedule == [] || HasFault(used))
    && (b.cut && !a.cut ==> b.faults > a.faults)
  }

  /**
   Polling has just failed, with the error `e`, after the answers `plan` have been used from some
   time on: the last one used was the driver's fault, or no answer was left, so that the run is cut off.
   */
  predicate Blames(plan: seq<Answer>, now: Standing, e: IoError) {
    if now.cut then now.schedule == [] && e == Cut
    else
      && |now.schedule| < |plan|
      && var last := plan[|plan| - |now.schedule| - 1];
      last.Fault? && e == NativeUnsigned(last.ret)
  }

  /** The same from an earlier time on. */
  lemma {:induction false} BlamesEarlier(length: nat, a: Standing, b: Standing, now: Standing, e: IoError)
    requires Leads(length, a, b) && Blames(b.schedule, now, e) && |now.schedule| <= |b.schedule|
    ensures Blames(a.schedule, now, e)
  {
    hide Gifts, HasFault;
    if !now.cut {
      assert a.schedule[|a.schedule| - |b.schedule|..][|b.schedule| - |now.schedule| - 1] == a.schedule[|a.schedule| - |now.schedule| - 1];
    }
  }

  lemma {:induction false} LeadsNowhere(length: nat, a: Standing)
    ensures Leads(length, a, a)
  {
    assert a.schedule[..0] == [];
  }

  lemma {:induction false} LeadsOn(length: nat, a: Standing, b: Standing, c: Standing)
    requires Leads(length, a, b) && Leads(length, b, c)
    ensures Leads(length, a, c)
  {
    hide Gifts, HasFault;
    var i, j := |a.schedule| - |b.schedule|, |b.schedule| - |c.schedule|;
    assert a.schedule[i + j..] == a.schedule[i..][j..];
    assert a.schedule[..i + j] == a.schedule[..i] + a.schedule[i..][..j];
    GiftsAdd(a.schedule[..i], b.schedule[..j]);
    FaultsAdd(a.schedule[..i], b.schedule[..j]);
  }

  lemma {:induction false} ShorterAfter(length: nat, a: Standing, b: Standing)
    requires Leads(length, a, b)
    ensures |b.schedule| <= |a.schedule|
  {
  }

  lemma {:induction false} GiftsAdd(a: seq<Answer>, b: seq<Answer>)
    ensures Gifts(a + b) == Gifts(a) + Gifts(b)
  {
    if b == [] {
      assert a + b == a;
    } else {
      var front := b[..|b| - 1];
      assert (a + b)[..|a + b| - 1] == a + front;
      GiftsAdd(a, front);
    }
  }

  lemma {:induction false} FaultsAdd(a: seq<Answer>, b: seq<Answer>)
    ensures HasFault(a) || HasFault(b) <==> HasFault(a + b)
  {
    if HasFault(a) {
      var i :| 0 <= i < |a| && a[i].Fault?;
      assert (a + b)[i].Fault?;
    }
    if HasFault(b) {
      var i :| 0 <= i < |b| && b[i].Fault?;
      assert (a + b)[|a| + i].Fault?;
    }
    if HasFault(a + b) {
      var i :| 0 <= i < |a + b| && (a + b)[i].Fault?;
      assert if i < |a| then a[i].Fault? else b[i - |a|].Fault?;
    }
  }

  lemma {:induction false} UsedOne(answers: seq<Answer>)
    ensures answers != [] ==>
              && Gifts(answers[..1]) == (if answers[0].Give? && answers[0].limit > 0 then 1 else 0)
              && (HasFault(answers[..1]) <==> answers[0].Fault?)
    ensures Gifts(answers[..0]) == 0
  {
    if answers != [] {
      assert answers[..1][..0] == [];
      assert answers[..1][0] == answers[0];
    }
  }

  /** The driver reports no fault, and has an answer for each of `bytes` bytes at least. */
  predicate Enough(answers: seq<Answer>, bytes: int) {
    !HasFault(answers) && Gifts(answers) >= bytes
  }

  lemma {:induction false} EnoughStays(length: nat, a: Standing, b: Standing)
    requires Leads(length, a, b) && Enough(a.schedule, length - a.pos)
    ensures Enough(b.schedule, length - b.pos)
  {
    hide HasFault;
    var used := a.schedule[..|a.schedule| - |b.schedule|];
    assert a.schedule == used + b.schedule;
    FaultsAdd(used, b.schedule);
    GiftsAdd(used, b.schedule);
  }

  /** With enough answers for the bytes up to `need`, polling does not fail before these have been read. */
  lemma {:induction false} EnoughReads(length: nat, a: Standing, b: Standing, need: nat)
    requires Leads(length, a, b) && Enough(a.schedule, need - a.pos) && need <= length
    ensures b.faults > a.faults ==> b.schedule == [] && b.pos >= need
  {
    hide Gifts;
    var used := a.schedule[..|a.schedule| - |b.schedule|];
    assert a.schedule == used + b.schedule;
    FaultsAdd(used, b.schedule);
    if b.schedule == [] {
      assert used == a.schedule;
    }
  }

  /**
   The reader over the C read function. `stream` is all that will ever arrive and `schedule`
   how the driver hands it out; a run of the model is cut off where the schedule ends.
   */
  class Source {
    const stream: seq<byte>
    var pos: nat
    var schedule: seq<Answer>
    var faults: nat
    ghost var cut: bool

    constructor (stream: seq<byte>, schedule: seq<Answer>)
      ensures Valid() && this.stream == stream && this.schedule == schedule
      ensures pos == 0 && faults == 0 && !cut
    {
      this.stream := stream;
      this.schedule := schedule;
      pos, faults, cut := 0, 0, false;
    }

    ghost predicate Valid()
      reads this
    {
      pos <= |stream| && (cut ==> schedule == [])
    }

    ghost function Now(): Standing
      reads this
    {
      Standing(pos, schedule, faults, cut)
    }

    /** Fills `buf[lo..hi]` from the left, with at least one byte unless it is pending or fails. */
    method PollRead(buf: array<byte>, lo: nat, hi: nat) returns (r: Poll)
      requires Valid() && lo < hi <= buf.Length
      modifies this, buf
      ensures Valid()
      ensures |schedule| <= old(|schedule|) && Leads(|stream|, old(Now()), Now())
      ensures forall i :: 0 <= i < buf.Length && !(r.Ready? && lo <= i < lo + r.count) ==> buf[i] == old(buf[i])
      ensures match r
              case Pending => pos == old(pos) && faults == old(faults) && |schedule| < old(|schedule|)
              case Ready(n) =>
                && !cut && 1 <= n <= hi - lo && |schedule| < old(|schedule|)
                && pos == old(pos) + n
                && faults == old(faults)
                && buf[lo..lo + n] == stream[old(pos)..pos]
              case Failed(e) =>
                && pos == old(pos) && faults == old(faults) + 1
                && Blames(old(schedule), Now(), e) && (cut <==> old(schedule) == [])
    {
      UsedOne(schedule);
      if schedule == [] {
        faults, cut := faults + 1, true;
        return Failed(Cut);
      }
      var event := schedule[0];
      schedule := schedule[1..];
      match event
      case Wait => r := Pending;
      case Fault(ret) =>
        faults := faults + 1;
        r := Failed(NativeUnsigned(ret));
      case Give(limit) =>
        var n := if limit < hi - lo then limit else hi - lo;
        n := if n < |stream| - pos then n else |stream| - pos;
        if n == 0 {
          r := Pending;
        } else {
          forall j | lo <= j < lo + n {
            buf[j] := stream[pos + (j - lo)];
          }
          pos := pos + n;
          r := Ready(n);
        }
    }
  }
}
