/**
 The lazy cursor over the encoded data: a stack of handles, each of which owes the rest of
 what it stands for, and two counters for what dropped handles have left unread.
 */
module Cursors {
  import opened Bytes
  import opened Errors
  import opened Tlv

  /** A live handle: `len` counts the elements left of a list, or the bytes left of a value. */
  datatype Handle = Handle(ty: TlvType, len: nat)

  /**
   `at` is the read position, `owedBytes` and `owedTlvs` are skipped before the next header
   is read, and the last of `handles` is the one in use.
   */
  datatype Cursor = Cursor(at: nat, owedBytes: nat, owedTlvs: nat, handles: seq<Handle>)
  {
    function Top(): Handle
      requires handles != []
    {
      handles[|handles| - 1]
    }

    function Below(): seq<Handle>
      requires handles != []
    {
      handles[..|handles| - 1]
    }

    /** The handle in use with another length. */
    function WithLen(len: nat): Cursor
      requires handles != []
    {
      this.(handles := Below() + [Top().(len := len)])
    }
  }

  datatype Item = NoneItem | Item(ty: TlvType, len: nat)

  /** The outcome of an operation: the new cursor and a result, or the data being over while reading. */
  datatype Step<T> = Step(cursor: Cursor, result: Result<T>) | DataOver
  {
    predicate IsFailure() {
      DataOver? || result.Err?
    }

    function PropagateFailure<U>(): Step<U>
      requires IsFailure()
    {
      if DataOver? then Step<U>.DataOver else Step<U>.Step(cursor, Err(result.error))
    }

    function Extract(): (Cursor, T)
      requires !IsFailure()
    {
      (cursor, result.value)
    }
  }

  // ------------------------------------------------------------ operations

  /** Skips `count` TLVs at the read position. */
  function SkipStep(data: seq<byte>, c: Cursor, count: nat): Step<()>
    requires c.at <= |data|
  {
    match SkipFlat(data, c.at, count)
    case Landed(p) => Step(c.(at := p), Ok(()))
    case Stopped(e, p) => Step(c.(at := p), Err(e))
    case OutOfData => DataOver
  }

  /** Skips what is owed. */
  function Flush(data: seq<byte>, c: Cursor): (s: Step<()>)
    ensures s.Step? && s.result.Ok? ==> s.cursor.owedBytes == 0 == s.cursor.owedTlvs
    ensures s.Step? ==> s.cursor.at <= |data| && s.cursor.handles == c.handles
  {
    if c.at + c.owedBytes > |data| then DataOver
    else
      match SkipFlat(data, c.at + c.owedBytes, c.owedTlvs)
      case Landed(p) => Step(Cursor(p, 0, 0, c.handles), Ok(()))
      case Stopped(e, p) => Step(Cursor(p, 0, c.owedTlvs, c.handles), Err(e))
      case OutOfData => DataOver
  }

  /** Reads `length` bytes at the read position, without skipping anything. */
  function Advance(data: seq<byte>, c: Cursor, length: nat): Step<()> {
    if c.at + length > |data| then DataOver else Step(c.(at := c.at + length), Ok(()))
  }

  function TakeByte(data: seq<byte>, c: Cursor): Step<byte> {
    if c.at >= |data| then DataOver else Step(c.(at := c.at + 1), Ok(data[c.at]))
  }

  /** Reads a header at the read position, without skipping anything. */
  function ReadHeader(data: seq<byte>, c: Cursor): (s: Step<(TlvType, nat)>)
    ensures s.Step? ==> s.cursor == c.(at := s.cursor.at) && s.cursor.at <= |data|
  {
    match HeaderAt(data, c.at)
    case RanOut => DataOver
    case Bad(e, next) => Step(c.(at := next), Err(e))
    case Header(ty, len, next) => Step(c.(at := next), Ok((ty, len)))
  }

  /** Skips what is owed and reads a header. */
  function ReadTlv(data: seq<byte>, c: Cursor): (s: Step<(TlvType, nat)>)
    ensures s.Step? && s.result.Ok? ==> s.cursor.owedBytes == 0 == s.cursor.owedTlvs
    ensures s.Step? ==> s.cursor.at <= |data| && s.cursor.handles == c.handles
  {
    match Flush(data, c)
    case DataOver => DataOver
    case Step(f, Err(e)) => Step(f, Err(e))
    case Step(f, Ok(_)) => ReadHeader(data, f)
  }

  /** `List::next`: the next element, whose handle goes on top of the list's. */
  function Next(data: seq<byte>, c: Cursor): (s: Step<Option<Item>>)
    requires c.handles != []
    ensures s.Step? ==> s.cursor.handles != []
    ensures s.Step? && s.result == Err(EndOfSmlMessage) ==> s.cursor.handles == c.handles && c.Top().len > 0
  {
    if c.Top().len == 0 then Step(c, Ok(None))
    else
      match ReadTlv(data, c)
      case DataOver => DataOver
      case Step(r, Err(e)) => Step(r, Err(e))
      case Step(r, Ok((ty, len))) =>
        var d := r.WithLen(c.Top().len - 1);
        if ty == String && len == 0 then Step(d, Ok(Some(NoneItem)))
        else if ty.Other? then Step(d, Err(UnsupportedTlvType(ty.raw)))
        else Step(d.(handles := d.handles + [Handle(ty, len)]), Ok(Some(Item(ty, len))))
  }

  /** `List::next_any` */
  function AnyElement(data: seq<byte>, c: Cursor): (s: Step<Item>)
    requires c.handles != []
    ensures s.Step? ==> s.cursor.handles != []
  {
    match Next(data, c)
    case DataOver => DataOver
    case Step(d, Err(e)) => Step(d, Err(e))
    case Step(d, Ok(None)) => Step(d, Err(EndOfList))
    case Step(d, Ok(Some(item))) => Step(d, Ok(item))
  }

  /** `next_string`, `next_unsigned`, `next_list` and so on: an element of type `ty`, whose length is returned. */
  function ElementOf(data: seq<byte>, c: Cursor, ty: TlvType): (s: Step<nat>)
    requires c.handles != []
    ensures s.Step? && s.result.Ok? ==> s.cursor.handles != []
  {
    match AnyElement(data, c)
    case DataOver => DataOver
    case Step(d, Err(e)) => Step(d, Err(e))
    case Step(d, Ok(NoneItem)) => Step(d, Err(NoneTlv))
    case Step(d, Ok(Item(t, len))) => if t == ty then Step(d, Ok(len)) else Step(Drop(d), Err(UnexpectedValue))
  }

  /** `next_integer_opt` and so on: the same with an empty string standing for absence. */
  function OptElementOf(data: seq<byte>, c: Cursor, ty: TlvType): (s: Step<Option<nat>>)
    requires c.handles != []
    ensures s.Step? && s.result.Ok? ==> s.cursor.handles != []
  {
    match AnyElement(data, c)
    case DataOver => DataOver
    case Step(d, Err(e)) => Step(d, Err(e))
    case Step(d, Ok(NoneItem)) => Step(d, Ok(None))
    case Step(d, Ok(Item(t, len))) => if t == ty then Step(d, Ok(Some(len))) else Step(Drop(d), Err(UnexpectedValue))
  }

  /** `List::next_end`: the end marker, which counts as an element, and nothing else. */
  function EndMarker(data: seq<byte>, c: Cursor): (s: Step<()>)
    requires c.handles != []
    ensures s.Step? && s.result.Ok? ==> s.cursor.handles != []
  {
    match Next(data, c)
    case DataOver => DataOver
    case Step(d, Err(EndOfSmlMessage)) => Step(d.WithLen(d.Top().len - 1), Ok(()))
    case Step(d, Err(e)) => Step(d, Err(e))
    case Step(d, Ok(item)) => Step(if item.Some? && item.value.Item? then Drop(d) else d, Err(UnexpectedValue))
  }

  /** `Reader::read_list` */
  function ReadList(data: seq<byte>, c: Cursor): Step<nat> {
    match ReadTlv(data, c)
    case DataOver => DataOver
    case Step(d, Err(e)) => Step(d, Err(e))
    case Step(d, Ok((ty, len))) =>
      if ty == List then Step(d.(handles := d.handles + [Handle(List, len)]), Ok(len))
      else Step(d, Err(UnexpectedTlv(ty, len)))
  }

  /** `List::skip` */
  function Skip(c: Cursor, num: nat): Step<()>
    requires c.handles != []
  {
    if num > c.Top().len then Step(c, Err(EndOfList))
    else Step(c.WithLen(c.Top().len - num).(owedTlvs := c.owedTlvs + num), Ok(()))
  }

  /** Dropping the handle in use: what it has not read is owed from now on. */
  function Drop(c: Cursor): Cursor
    requires c.handles != []
  {
    var top := c.Top();
    if top.ty == List then c.(handles := c.Below(), owedTlvs := c.owedTlvs + top.len)
    else c.(handles := c.Below(), owedBytes := c.owedBytes + top.len)
  }

  /** All bytes of the value in use. */
  function Take(data: seq<byte>, c: Cursor): Step<seq<byte>>
    requires c.handles != []
  {
    var len := c.Top().len;
    if c.at + len > |data| then DataOver
    else Step(c.WithLen(0).(at := c.at + len), Ok(data[c.at..c.at + len]))
  }

  /** `String::read` into a buffer of the given size. */
  function ReadString(data: seq<byte>, c: Cursor, size: nat): Step<seq<byte>>
    requires c.handles != []
  {
    if size != c.Top().len then Step(c, Err(WrongBufferSize)) else Take(data, c)
  }

  /** The `into_*` functions of numbers and flags: the value is used up in any case. */
  function Into(data: seq<byte>, c: Cursor, min: nat, max: nat): Step<seq<byte>>
    requires c.handles != []
  {
    var len := c.Top().len;
    if min <= len <= max then
      match Take(data, c)
      case DataOver => DataOver
      case Step(d, r) => Step(Drop(d), r)
    else Step(Drop(c), Err(UnsupportedLen(len)))
  }

  /** What a consumer can do with the handle in use. */
  datatype Op = DoNext | DoSkip(num: nat) | DoReadString(size: nat) | DoInto(min: nat, max: nat) | DoDrop

  /** What it observes. */
  datatype Obs = Saw(item: Option<Item>) | Took(bytes: seq<byte>) | Moved

  /** The operations that the type of the handle in use offers; the handles below `base` are out of reach. */
  predicate Enabled(handles: seq<Handle>, base: nat, op: Op) {
    && |handles| > base
    && var ty := handles[|handles| - 1].ty;
    match op
    case DoNext => ty == List
    case DoSkip(_) => ty == List
    case DoReadString(_) => ty == String
    case DoInto(_, _) => ty == Boolean || ty == Integer || ty == Unsigned
    case DoDrop => true
  }

  function Observed<T>(s: Step<T>, f: T -> Obs): Step<Obs> {
    match s
    case DataOver => DataOver
    case Step(c, Ok(v)) => Step(c, Ok(f(v)))
    case Step(c, Err(e)) => Step(c, Err(e))
  }

  function Apply(data: seq<byte>, c: Cursor, op: Op): Step<Obs>
    requires c.handles != []
  {
    match op
    case DoNext => Observed(Next(data, c), item => Saw(item))
    case DoSkip(num) => Observed(Skip(c, num), _ => Moved)
    case DoReadString(size) => Observed(ReadString(data, c, size), bs => Took(bs))
    case DoInto(min, max) => Observed(Into(data, c, min, max), bs => Took(bs))
    case DoDrop => Step(Drop(c), Ok(Moved))
  }

  /** Errors after which a consumer can go on: the cursor has kept track of everything. */
  predicate Soft(e: Error) {
    e.EndOfList? || e.WrongBufferSize? || e.UnsupportedLen?
  }

  /** With those of `next_string` and the like, which drop an element of the wrong type. */
  predicate Mild(e: Error) {
    Soft(e) || e.UnexpectedValue? || e.NoneTlv?
  }

  /** Errors that no header causes. */
  predicate OfElement(e: Error) {
    Mild(e) || e.UnsupportedTlvType?
  }

  predicate GoesOn<T>(s: Step<T>) {
    s.Step? && (s.result.Ok? || Soft(s.result.error))
  }

  // ---------------------------------------------------- the end of message

  /** The bytes that the value in use has left; only the topmost handle can be a value. */
  function LiveBytes(handles: seq<Handle>, base: nat): nat {
    if |handles| <= base || handles[|handles| - 1].ty == List then 0 else handles[|handles| - 1].len
  }

  /** The elements that all live lists from `base` on have left. */
  function LiveTlvs(handles: seq<Handle>, base: nat): nat {
    if |handles| <= base then 0
    else
      var top := handles[|handles| - 1];
      (if top.ty == List then top.len else 0) + LiveTlvs(handles[..|handles| - 1], base)
  }

  /** Lists are below; while a value is in use nothing else is owed. */
  predicate Tidy(c: Cursor, base: nat) {
    && base <= |c.handles|
    && (forall i :: 0 <= i < |c.handles| - 1 ==> c.handles[i].ty == List)
    && (|c.handles| == base && base > 0 ==> c.handles[base - 1].ty == List)
    && (c.handles != [] && c.Top().ty != List ==> c.owedBytes == 0 == c.owedTlvs)
  }

  /** Where one gets by skipping all that is owed and all that the handles from `base` on have left. */
  function Land(data: seq<byte>, c: Cursor, base: nat): Skipped {
    var from := c.at + c.owedBytes + LiveBytes(c.handles, base);
    if from > |data| then OutOfData else SkipFlat(data, from, c.owedTlvs + LiveTlvs(c.handles, base))
  }

  lemma {:induction false} LiveOfPush(below: seq<Handle>, h: Handle, base: nat)
    requires base <= |below|
    ensures LiveTlvs(below + [h], base) == (if h.ty == List then h.len else 0) + LiveTlvs(below, base)
    ensures LiveBytes(below + [h], base) == if h.ty == List then 0 else h.len
  {
    assert (below + [h])[..|below|] == below;
  }

  lemma {:induction false} LiveOfTop(c: Cursor, base: nat)
    requires |c.handles| > base
    ensures LiveTlvs(c.handles, base) == (if c.Top().ty == List then c.Top().len else 0) + LiveTlvs(c.Below(), base)
    ensures LiveBytes(c.handles, base) == if c.Top().ty == List then 0 else c.Top().len
  {
  }

  /** With only lists alive, no bytes are. */
  lemma {:induction false} NoLiveBytes(handles: seq<Handle>, base: nat)
    requires forall i :: 0 <= i < |handles| ==> handles[i].ty == List
    ensures LiveBytes(handles, base) == 0
  {
  }

  /** After skipping what is owed one still lands on the same place. */
  lemma {:induction false} LandAfterFlush(data: seq<byte>, c: Cursor, base: nat)
    requires Tidy(c, base)
    requires Flush(data, c).Step? && Flush(data, c).result.Ok?
    ensures var f := Flush(data, c).cursor; Tidy(f, base) && Land(data, f, base) == Land(data, c, base)
  {
    hide HeaderAt, SkipFlat;
    if LiveBytes(c.handles, base) == 0 {
      SkipAdds(data, c.at + c.owedBytes, c.owedTlvs, LiveTlvs(c.handles, base));
    } else {
      SkipNone(data, c.at);
    }
  }

  lemma {:induction false} SkipNone(data: seq<byte>, p: nat)
    requires p <= |data|
    ensures SkipFlat(data, p, 0) == Landed(p)
  {
  }

  /** What reading an element does to the cursor, in terms of the header found after skipping. */
  lemma {:induction false} NextShape(data: seq<byte>, c: Cursor)
    requires c.handles != [] && c.Top().ty == List && c.Top().len > 0
    requires Next(data, c).Step? && Next(data, c).result.Ok?
    ensures Flush(data, c).Step? && Flush(data, c).result.Ok?
    ensures var f := Flush(data, c).cursor;
            && f.owedBytes == 0 == f.owedTlvs && f.handles == c.handles && f.at <= |data|
            && var h := HeaderAt(data, f.at);
            && h.Header?
            && var list := c.Below() + [Handle(List, c.Top().len - 1)];
            && Next(data, c).cursor == Cursor(h.next, 0, 0, if h.ty == String && h.len == 0 then list else list + [Handle(h.ty, h.len)])
  {
    hide HeaderAt, Flush;
  }

  /** Reading the next element of a list gives its place to the element's handle. */
  lemma {:induction false} LandAfterNext(data: seq<byte>, c: Cursor, base: nat)
    requires Tidy(c, base) && |c.handles| > base && c.Top().ty == List
    requires Next(data, c).Step? && Next(data, c).result.Ok?
    ensures var n := Next(data, c).cursor;
            && Tidy(n, base) && Land(data, n, base) == Land(data, c, base)
            && n.handles[..base] == c.handles[..base]
  {
    hide HeaderAt, SkipFlat, Flush, LiveTlvs, LiveBytes;
    if c.Top().len > 0 {
      NextShape(data, c);
      hide Next;
      LandAfterFlush(data, c, base);
      var f, len := Flush(data, c).cursor, c.Top().len;
      var h, list := HeaderAt(data, f.at), c.Below() + [Handle(List, len - 1)];
      LiveOfTop(c, base);
      LiveOfPush(c.Below(), Handle(List, len - 1), base);
      LiveOfPush(list, Handle(h.ty, h.len), base);
      SkipFirst(data, f.at, h, len + LiveTlvs(c.Below(), base));
    }
  }

  lemma {:induction false} SkipFirst(data: seq<byte>, p: nat, h: Header, n: nat)
    requires p <= |data| && n > 0 && h == HeaderAt(data, p) && h.Header?
    ensures SkipFlat(data, p, n)
            == if h.ty == List then SkipFlat(data, h.next, n - 1 + h.len)
               else if h.next + h.len > |data| then OutOfData
               else SkipFlat(data, h.next + h.len, n - 1)
  {
    hide HeaderAt;
  }

  /** The operations that read no header keep the place as well. */
  lemma {:induction false} LandAfterOther(data: seq<byte>, c: Cursor, base: nat, op: Op)
    requires Tidy(c, base) && Enabled(c.handles, base, op) && !op.DoNext?
    requires GoesOn(Apply(data, c, op))
    ensures var n := Apply(data, c, op).cursor;
            && Tidy(n, base) && Land(data, n, base) == Land(data, c, base)
            && n.handles[..base] == c.handles[..base]
  {
    hide HeaderAt, SkipFlat, LiveTlvs, LiveBytes, Next, Flush;
    var below, top := c.Below(), c.Top();
    assert c.handles == below + [top];
    LiveOfTop(c, base);
    NoLiveBytes(below, base);
    match op
    case DoSkip(num) => if num <= top.len { LiveOfPush(below, Handle(List, top.len - num), base); }
    case DoReadString(size) => LiveOfPush(below, Handle(String, 0), base);
    case DoInto(min, max) =>
    case DoDrop =>
  }

  /** Every operation that a consumer can go on after keeps the place, and the handles below `base`. */
  lemma {:induction false} LandAfterStep(data: seq<byte>, c: Cursor, base: nat, op: Op)
    requires Tidy(c, base) && Enabled(c.handles, base, op)
    requires GoesOn(Apply(data, c, op))
    ensures var n := Apply(data, c, op).cursor;
            && Tidy(n, base) && Land(data, n, base) == Land(data, c, base)
            && base <= |c.handles| && base <= |n.handles| && n.handles[..base] == c.handles[..base]
  {
    hide Land, Tidy, Next, Skip, ReadString, Into;
    if op.DoNext? {
      NextGoesOn(data, c);
      LandAfterNext(data, c, base);
    } else {
      LandAfterOther(data, c, base, op);
    }
    TidyBase(Apply(data, c, op).cursor, base);
  }

  // ------------------------------------------------------------------ runs

  /** A consumer does something with its handles, or is done and replies. */
  datatype Choice = Do(op: Op) | Reply(reply: Result<()>)

  /** What a callback has observed in each of the messages it has been given. */
  type Past = seq<seq<Result<Obs>>>

  /** It chooses by what it has observed in the messages before this one, and in this one so far. */
  type Strategy = (Past, seq<Result<Obs>>) -> Choice

  /** A run of a consumer: the cursor it leaves and what it observed, or the error it had to pass on. */
  datatype Ran = Ran(cursor: Cursor, log: seq<Result<Obs>>) | Aborted(cursor: Cursor, error: Error) | RanDry

  /**
   A consumer that has observed `log` goes on for `steps` operations at most. It passes on
   every error after which it could not go on, and is done if it chooses an operation that the
   handle in use does not offer.
   */
  function Run(data: seq<byte>, c: Cursor, base: nat, strategy: Strategy, heard: Past,
    log: seq<Result<Obs>>, steps: nat): Ran
    decreases steps
  {
    if steps == 0 then Ran(c, log)
    else
      var choice := strategy(heard, log);
      if choice.Reply? || !Enabled(c.handles, base, choice.op) then Ran(c, log)
      else
        match Apply(data, c, choice.op)
        case DataOver => RanDry
        case Step(d, r) =>
          if r.Err? && !Soft(r.error) then Aborted(d, r.error)
          else Run(data, d, base, strategy, heard, log + [r], steps - 1)
  }

  /** Dropping every handle from `base` on, the one in use first. */
  function DropTo(c: Cursor, base: nat): Cursor
    decreases |c.handles|
  {
    if |c.handles| <= base then c else DropTo(Drop(c), base)
  }

  /**
   Cursor conservation: whatever a consumer reads, skips or drops, however it decides on that,
   skipping all that is still owed and alive lands on the same place as before.
   */
  lemma {:induction false} RunKeepsLand(data: seq<byte>, c: Cursor, base: nat, strategy: Strategy,
      heard: Past, log: seq<Result<Obs>>, steps: nat)
    requires Tidy(c, base) && Run(data, c, base, strategy, heard, log, steps).Ran?
    ensures var n := Run(data, c, base, strategy, heard, log, steps).cursor;
            && Tidy(n, base) && Land(data, n, base) == Land(data, c, base)
            && n.handles[..base] == c.handles[..base]
    decreases steps
  {
    hide Land, Tidy, Next, Skip, ReadString, Into;
    if steps > 0 {
      var choice := strategy(heard, log);
      if choice.Do? && Enabled(c.handles, base, choice.op) {
        LandAfterStep(data, c, base, choice.op);
        var s := Apply(data, c, choice.op);
        RunKeepsLand(data, s.cursor, base, strategy, heard, log + [s.result], steps - 1);
      }
    }
  }

  /** Reading a header never fails softly. */
  lemma {:induction false} NextGoesOn(data: seq<byte>, c: Cursor)
    requires c.handles != [] && GoesOn(Next(data, c))
    ensures Next(data, c).result.Ok?
  {
    SkipFailsHard(data, c.at + c.owedBytes, c.owedTlvs);
    var f := Flush(data, c);
    if f.Step? && f.result.Ok? {
      HeaderFailsHard(data, f.cursor.at);
    }
  }

  lemma {:induction false} SkipFailsHard(data: seq<byte>, p: nat, n: nat)
    ensures p <= |data| && SkipFlat(data, p, n).Stopped? ==> !OfElement(SkipFlat(data, p, n).error)
    decreases |data| - p, n
  {
    hide HeaderAt;
    if n > 0 && p <= |data| {
      HeaderFailsHard(data, p);
      var h := HeaderAt(data, p);
      if h.Header? {
        if h.ty == List {
          SkipFailsHard(data, h.next, n - 1 + h.len);
        } else if h.next + h.len <= |data| {
          SkipFailsHard(data, h.next + h.len, n - 1);
        }
      }
    }
  }

  lemma {:induction false} HeaderFailsHard(data: seq<byte>, p: nat)
    ensures HeaderAt(data, p).Bad? ==> !OfElement(HeaderAt(data, p).error)
  {
    if p < |data| {
      HeaderFromFailsHard(data, p + 1, TypeOf(data[p]), Nibble(data[p]), 1, data[p]);
    }
  }

  lemma {:induction false} HeaderFromFailsHard(data: seq<byte>, p: nat, ty: TlvType, len: nat, headerLen: nat, last: byte)
    requires p <= |data|
    ensures var h := HeaderFrom(data, p, ty, len, headerLen, last); h.Bad? ==> !OfElement(h.error)
    decreases |data| - p
  {
    if HasMore(last) && p < |data| {
      HeaderFromFailsHard(data, p + 1, ty, len * 16 % WORD + Nibble(data[p]), headerLen + 1, data[p]);
    }
  }

  /** Asking for an element of a certain type keeps the place, even if one of another type is found. */
  lemma {:induction false} LandAfterElement(data: seq<byte>, c: Cursor, base: nat, ty: TlvType)
    requires Tidy(c, base) && |c.handles| > base && c.Top().ty == List
    requires var s := ElementOf(data, c, ty); s.Step? && (s.result.Ok? || Mild(s.result.error))
    ensures var n := ElementOf(data, c, ty).cursor;
            && Tidy(n, base) && Land(data, n, base) == Land(data, c, base)
            && base <= |n.handles| && n.handles[..base] == c.handles[..base]
  {
    hide Land, Tidy, Next;
    TidyBase(c, base);
    var s := Next(data, c);
    NextFailsHard(data, c);
    if s.result.Ok? {
      LandAfterNext(data, c, base);
      TidyBase(s.cursor, base);
      NextGrows(data, c);
      if s.result.value.Some? && s.result.value.value.Item? && s.result.value.value.ty != ty {
        LandAfterOther(data, s.cursor, base, DoDrop);
      }
    }
  }

  lemma {:induction false} NextFailsHard(data: seq<byte>, c: Cursor)
    requires c.handles != []
    ensures Next(data, c).Step? && Next(data, c).result.Err? ==> !Mild(Next(data, c).result.error)
  {
    SkipFailsHard(data, c.at + c.owedBytes, c.owedTlvs);
    var f := Flush(data, c);
    if f.Step? && f.result.Ok? {
      HeaderFailsHard(data, f.cursor.at);
    }
  }

  lemma {:induction false} NextGrows(data: seq<byte>, c: Cursor)
    requires c.handles != []
    ensures var s := Next(data, c);
            s.Step? && s.result.Ok? && s.result.value.Some? && s.result.value.value.Item? ==> |s.cursor.handles| == |c.handles| + 1
  {
    hide HeaderAt, Flush;
  }

  /** The header that reading the next element finds, once what is owed is paid. */
  function HeaderAhead(data: seq<byte>, c: Cursor): Header {
    var f := Flush(data, c);
    if f.Step? && f.result.Ok? then HeaderAt(data, f.cursor.at) else RanOut
  }

  /** Reading an element fails for its type exactly if the header ahead is one of a reserved type. */
  lemma {:induction false} UnsupportedExactly(data: seq<byte>, c: Cursor)
    requires c.handles != []
    ensures var s, h := Next(data, c), HeaderAhead(data, c);
            && (s.Step? && s.result.Err? && s.result.error.UnsupportedTlvType? <==>
                  c.Top().len > 0 && h.Header? && h.ty.Other?)
            && (c.Top().len > 0 && h.Header? && h.ty.Other? ==> s.result == Err(UnsupportedTlvType(h.ty.raw)))
  {
    hide HeaderAt, SkipFlat;
    SkipFailsHard(data, c.at + c.owedBytes, c.owedTlvs);
    var f := Flush(data, c);
    if f.Step? && f.result.Ok? {
      HeaderFailsHard(data, f.cursor.at);
    }
  }

  /**
   A value of an unsupported type is the exception: its header is read and its payload
   forgotten, so that what follows is skipped from the payload's first byte on. Only an empty
   payload is sure to do no harm.
   */
  lemma {:induction false} LandAfterUnsupported(data: seq<byte>, c: Cursor, base: nat)
    requires Tidy(c, base) && |c.handles| > base && c.Top().ty == List && c.Top().len > 0
    requires HeaderAhead(data, c).Header? && HeaderAhead(data, c).ty.Other?
    ensures Next(data, c).Step?
    ensures var h, n := HeaderAhead(data, c), Next(data, c).cursor;
            && Land(data, n, base) == SkipFlat(data, h.next, LiveTlvs(n.handles, base))
            && Land(data, c, base) == (if h.next + h.len > |data| then OutOfData
                                       else SkipFlat(data, h.next + h.len, LiveTlvs(n.handles, base)))
            && (h.len == 0 ==> Land(data, n, base) == Land(data, c, base))
  {
    hide HeaderAt, SkipFlat, Flush, LiveTlvs, LiveBytes;
    UnsupportedExactly(data, c);
    UnsupportedShape(data, c);
    hide Next, Land;
    LandAfterFlush(data, c, base);
    var f, n := Flush(data, c).cursor, Next(data, c).cursor;
    LiveOfTop(c, base);
    LiveOfPush(c.Below(), Handle(List, c.Top().len - 1), base);
    LandOfLists(data, f, base);
    LandOfLists(data, n, base);
    SkipFirst(data, f.at, HeaderAt(data, f.at), LiveTlvs(c.handles, base));
  }

  lemma {:induction false} LandOfLists(data: seq<byte>, c: Cursor, base: nat)
    requires c.at <= |data| && c.owedBytes == 0 == c.owedTlvs && LiveBytes(c.handles, base) == 0
    ensures Land(data, c, base) == SkipFlat(data, c.at, LiveTlvs(c.handles, base))
  {
    hide SkipFlat, LiveTlvs, LiveBytes;
  }

  lemma {:induction false} UnsupportedShape(data: seq<byte>, c: Cursor)
    requires c.handles != [] && c.Top().len > 0
    requires Next(data, c).Step? && Next(data, c).result.Err? && Next(data, c).result.error.UnsupportedTlvType?
    ensures Flush(data, c).Step? && Flush(data, c).result.Ok?
    ensures var f := Flush(data, c).cursor; var h := HeaderAt(data, f.at);
            && f == Cursor(f.at, 0, 0, c.handles) && f.at <= |data|
            && h.Header? && h.ty.Other?
            && Next(data, c).cursor == Cursor(h.next, 0, 0, c.Below() + [Handle(c.Top().ty, c.Top().len - 1)])
  {
    hide HeaderAt, SkipFlat;
    SkipFailsHard(data, c.at + c.owedBytes, c.owedTlvs);
    var f := Flush(data, c);
    if f.Step? && f.result.Ok? {
      HeaderFailsHard(data, f.cursor.at);
    }
  }

  /** For example, of the two elements here the second one is not found again. */
  lemma {:induction false} UnsupportedLosesPlace(data: seq<byte>, c: Cursor)
    requires data == [0x12, 0xAA, 0x62, 0x05] && c == Cursor(0, 0, 0, [Handle(List, 2)])
    ensures Next(data, c).Step? && Next(data, c).result == Err(UnsupportedTlvType(1))
    ensures Land(data, c, 0) == Landed(4)
    ensures Land(data, Next(data, c).cursor, 0) == Stopped(MultibyteTlvReservedType(6), 3)
  {
    hide HeaderAt, SkipFlat, Next, Flush;
    ExampleHeaders(data);
    ExampleNext(data, c);
    SkipFirst(data, 0, HeaderAt(data, 0), 2);
    SkipFirst(data, 2, HeaderAt(data, 2), 1);
    SkipNone(data, 4);
    SkipBad(data, 1, 1);
    LandOfList(data, 0, 2);
    LandOfList(data, 1, 1);
  }

  lemma {:induction false} LandOfList(data: seq<byte>, p: nat, n: nat)
    requires p <= |data|
    ensures Land(data, Cursor(p, 0, 0, [Handle(List, n)]), 0) == SkipFlat(data, p, n)
  {
    hide SkipFlat;
    LiveOfPush([], Handle(List, n), 0);
    assert [] + [Handle(List, n)] == [Handle(List, n)];
  }

  lemma {:induction false} ExampleNext(data: seq<byte>, c: Cursor)
    requires c == Cursor(0, 0, 0, [Handle(List, 2)])
    requires HeaderAt(data, 0) == Header(Other(1), 1, 1)
    ensures Next(data, c) == Step(Cursor(1, 0, 0, [Handle(List, 1)]), Err(UnsupportedTlvType(1)))
  {
    hide HeaderAt, SkipFlat;
    SkipNone(data, 0);
    assert [Handle(List, 2)][..0] == [];
  }

  lemma {:induction false} ExampleHeaders(data: seq<byte>)
    requires data == [0x12, 0xAA, 0x62, 0x05]
    ensures HeaderAt(data, 0) == Header(Other(1), 1, 1)
    ensures HeaderAt(data, 1) == Bad(MultibyteTlvReservedType(6), 3)
    ensures HeaderAt(data, 2) == Header(Unsigned, 1, 3)
  {
  }

  lemma {:induction false} SkipBad(data: seq<byte>, p: nat, n: nat)
    requires p <= |data| && n > 0 && HeaderAt(data, p).Bad? && HeaderAt(data, p).error != EndOfSmlMessage
    ensures SkipFlat(data, p, n) == Stopped(HeaderAt(data, p).error, HeaderAt(data, p).next)
  {
    hide HeaderAt;
  }

  /** Dropping all handles keeps the place too, and leaves only debts behind. */
  lemma {:induction false} DropToKeepsLand(data: seq<byte>, c: Cursor, base: nat)
    requires Tidy(c, base)
    ensures var n := DropTo(c, base);
            && Tidy(n, base) && Land(data, n, base) == Land(data, c, base)
            && n.handles == c.handles[..base]
    decreases |c.handles|
  {
    hide Land, Tidy;
    TidyBase(c, base);
    if |c.handles| > base {
      LandAfterOther(data, c, base, DoDrop);
      DropToKeepsLand(data, Drop(c), base);
    } else {
      assert c.handles[..base] == c.handles;
    }
  }

  lemma {:induction false} TidyBase(c: Cursor, base: nat)
    requires Tidy(c, base)
    ensures base <= |c.handles|
  {
  }

  /** Once all handles are dropped, the place is where skipping what is owed leads. */
  lemma {:induction false} LandOfDebts(data: seq<byte>, c: Cursor, base: nat)
    requires |c.handles| == base
    ensures var l := Land(data, c, base);
            Flush(data, c) == match l
                              case Landed(p) => Step(Cursor(p, 0, 0, c.handles), Ok(()))
                              case Stopped(e, p) => Step(Cursor(p, 0, c.owedTlvs, c.handles), Err(e))
                              case OutOfData => DataOver
  {
    hide SkipFlat;
  }
}
