/**
 The steps that generated accessors are made of: the next element of a certain type, skipping
 fields, taking a number. On well-formed data each does to the walker's stack what its
 function on trees says.
 */
module Consumer {
  import opened Bytes
  import opened Errors
  import opened Tlv
  import opened Spec = Cursors
  import opened Walker
  import opened Readings
  import opened Steps
  import opened TlvReader
  import Message

  /** Where a consumer works: on the handles from `base` on, whose data ends at `tail`. */
  datatype Ground = Ground(base: nat, tail: nat, land: Skipped)

  ghost predicate Ready(reader: Reader, g: Ground, stack: Option<seq<Layer>>)
    reads reader.Repr()
  {
    reader.Stands(g.base, g.land) && reader.Walks(g.base, stack, g.tail)
  }

  ghost predicate ListInUse(reader: Reader, g: Ground)
    reads reader
  {
    |reader.handles| > g.base && reader.handles[|reader.handles| - 1].ty == List
  }

  /** The list in use stayed in place, and at most one handle, `added`, came on top of it. */
  predicate Grown(before: seq<Handle>, after: seq<Handle>, base: nat, added: Option<Handle>) {
    && base < |before| <= |after|
    && after[..|before| - 1] == before[..|before| - 1]
    && after[|before| - 1].ty == List
    && match added
       case None => |after| == |before|
       case Some(h) => |after| == |before| + 1 && after[|before|] == h
  }

  /** The list in use has fewer elements left than before. */
  predicate Consumed(before: seq<Handle>, after: seq<Handle>) {
    0 < |before| <= |after| && after[|before| - 1].len < before[|before| - 1].len
  }

  /** The element that comes next, if it is of type `ty`. */
  function ExpectNext(trees: seq<Tlv>, ty: TlvType): Result<Layer> {
    var t :- FieldAt(trees, 0);
    Expect(t, ty)
  }

  lemma {:induction false} ExpectShape(trees: seq<Tlv>, ty: TlvType)
    requires ExpectNext(trees, ty).Ok?
    ensures var f := ExpectNext(trees, ty).value;
            && trees != [] && f == LayerOf(trees[0]) && HandleOf(f).ty == ty && HandleOf(f) == Handle(ty, HandleOf(f).len)
            && (ty != List ==> f == Payload(ty, BytesOf(f)) && |BytesOf(f)| == HandleOf(f).len)
  {
  }

  lemma {:induction false} Pushed(stack: seq<Layer>, f: Layer)
    ensures Top(stack + [f]) == f && Below(stack + [f]) == stack
  {
  }

  /** On the trees, `next_*` leads from `stack` to `left` with result `r`. */
  ghost predicate NextTreads(stack: seq<Layer>, ty: TlvType, left: seq<Layer>, r: Result<nat>) {
    && stack != [] && Top(stack).Items?
    && var trees := Top(stack).trees;
    match ExpectNext(trees, ty)
    case Ok(f) => r == Ok(HandleOf(f).len) && left == Below(stack) + [Items(trees[1..])] + [f]
    case Err(e) => r == Err(e)
  }

  lemma {:induction false} HandlesAfterNext(data: seq<byte>, c: Spec.Cursor, item: Item)
    requires c.handles != [] && c.Top().ty == List
    requires Spec.Next(data, c).Step? && Spec.Next(data, c).result == Ok(Some(item)) && item.Item?
    ensures c.Top().len > 0 && !item.ty.Other?
    ensures Spec.Next(data, c).cursor.handles == c.Below() + [Handle(List, c.Top().len - 1)] + [Handle(item.ty, item.len)]
  {
    hide HeaderAt, Flush;
  }

  /** An optional element: absent if an empty string stands for it. */
  ghost predicate NextOptTreads(stack: seq<Layer>, ty: TlvType, left: seq<Layer>, r: Result<Option<nat>>) {
    && stack != [] && Top(stack).Items?
    && var trees := Top(stack).trees;
    if trees != [] && trees[0] == Prim(String, []) then r == Ok(None) && left == Below(stack) + [Items(trees[1..])]
    else
      match ExpectNext(trees, ty)
      case Ok(f) => r == Ok(Some(HandleOf(f).len)) && left == Below(stack) + [Items(trees[1..])] + [f]
      case Err(e) => r == Err(e)
  }

  lemma {:induction false} HandlesAfterNone(data: seq<byte>, c: Spec.Cursor)
    requires c.handles != [] && c.Top().ty == List
    requires Spec.Next(data, c).Step? && Spec.Next(data, c).result == Ok(Some(NoneItem))
    ensures c.Top().len > 0
    ensures Spec.Next(data, c).cursor.handles == c.Below() + [Handle(List, c.Top().len - 1)]
  {
    hide HeaderAt, Flush;
  }

  /** Any element at all. */
  ghost predicate NextAnyTreads(stack: seq<Layer>, left: seq<Layer>, r: Result<Item>) {
    && stack != [] && Top(stack).Items?
    && var trees := Top(stack).trees;
    if trees == [] then r == Err(EndOfList)
    else
      var rest := Below(stack) + [Items(trees[1..])];
      if trees[0] == Prim(String, []) then r == Ok(NoneItem) && left == rest
      else if trees[0].Prim? && trees[0].ty.Other? then r == Err(UnsupportedTlvType(trees[0].ty.raw))
      else var f := LayerOf(trees[0]); r == Ok(Item(HandleOf(f).ty, HandleOf(f).len)) && left == rest + [f]
  }

  lemma {:induction false} AnyOnTrees(stack: seq<Layer>, left: seq<Layer>, r: Result<Obs>)
    requires Treads(stack, DoNext, left, r)
    ensures match r
            case Err(e) => NextAnyTreads(stack, left, Err(e))
            case Ok(Saw(Some(item))) => NextAnyTreads(stack, left, Ok(item))
            case Ok(_) => NextAnyTreads(stack, left, Err(EndOfList))
  {
  }

  /** `next_any` */
  method NextAny(reader: Reader, ghost g: Ground, ghost stack: Option<seq<Layer>>)
    returns (r: Result<Item>, ghost left: Option<seq<Layer>>)
    requires Ready(reader, g, stack) && ListInUse(reader, g)
    modifies reader.Repr()
    ensures reader.Steady(old(reader.reader.since), old(reader.reader.pending), old(reader.reader.faults))
    ensures r.Ok? ==>
              && reader.reader.faults == old(reader.reader.faults)
              && Ready(reader, g, left)
              && (r.value.Item? ==> !r.value.ty.Other?)
              && Consumed(old(reader.handles), reader.handles)
              && Grown(old(reader.handles), reader.handles, g.base, if r.value.Item? then Some(Handle(r.value.ty, r.value.len)) else None)
    ensures reader.Agrees(old(reader.reader.faults), AnyElement(reader.reader.data, old(reader.View())), r)
    ensures left.Some? <==> stack.Some?
    ensures stack.Some? && reader.reader.faults == old(reader.reader.faults) ==> NextAnyTreads(stack.value, left.value, r)
  {
    hide Message.CheckingReader.Valid, Spec.Next, Rel, Tidy, Land, Walk, Treads, NextAnyTreads;
    ghost var c := reader.View();
    var seen;
    seen, left := reader.Use(DoNext, g.base, stack, g.tail, g.land);
    if stack.Some? && reader.reader.faults == old(reader.reader.faults) {
      AnyOnTrees(stack.value, left.value, seen);
    }
    match seen
    case Err(e) => r := Err(e);
    case Ok(Saw(Some(Item(t, len)))) =>
      HandlesAfterNext(reader.reader.data, c, Item(t, len));
      r := Ok(Item(t, len));
    case Ok(Saw(Some(NoneItem))) =>
      HandlesAfterNone(reader.reader.data, c);
      r := Ok(NoneItem);
    case Ok(_) => r := Err(EndOfList);
  }

  /** What `next_*` makes of any element. */
  function Picked(item: Result<Item>, ty: TlvType): Result<nat> {
    match item
    case Err(e) => Err(e)
    case Ok(NoneItem) => Err(NoneTlv)
    case Ok(Item(t, len)) => if t == ty then Ok(len) else Err(UnexpectedValue)
  }

  lemma {:induction false} OfOnTrees(stack: seq<Layer>, ty: TlvType, left: seq<Layer>, item: Result<Item>)
    requires NextAnyTreads(stack, left, item)
    ensures NextTreads(stack, ty, left, Picked(item, ty))
  {
  }

  /** What `next_*_opt` makes of it. */
  function PickedOpt(item: Result<Item>, ty: TlvType): Result<Option<nat>> {
    match item
    case Err(e) => Err(e)
    case Ok(NoneItem) => Ok(None)
    case Ok(Item(t, len)) => if t == ty then Ok(Some(len)) else Err(UnexpectedValue)
  }

  lemma {:induction false} OptOfOnTrees(stack: seq<Layer>, ty: TlvType, left: seq<Layer>, item: Result<Item>)
    requires NextAnyTreads(stack, left, item)
    ensures NextOptTreads(stack, ty, left, PickedOpt(item, ty))
  {
  }

  /** `next_string`, `next_unsigned`, `next_list` and so on. */
  method NextOf(reader: Reader, ty: TlvType, ghost g: Ground, ghost stack: Option<seq<Layer>>)
    returns (r: Result<nat>, ghost left: Option<seq<Layer>>)
    requires Ready(reader, g, stack) && ListInUse(reader, g)
    modifies reader.Repr()
    ensures reader.Steady(old(reader.reader.since), old(reader.reader.pending), old(reader.reader.faults))
    ensures r.Ok? ==>
              && reader.reader.faults == old(reader.reader.faults)
              && Ready(reader, g, left)
              && Grown(old(reader.handles), reader.handles, g.base, Some(Handle(ty, r.value)))
              && Consumed(old(reader.handles), reader.handles)
    ensures reader.Agrees(old(reader.reader.faults), ElementOf(reader.reader.data, old(reader.View()), ty), r)
    ensures left.Some? <==> stack.Some?
    ensures stack.Some? && reader.reader.faults == old(reader.reader.faults) ==> NextTreads(stack.value, ty, left.value, r)
  {
    hide Message.CheckingReader.Valid, Rel, Tidy, Land, Spec.Next, NextAnyTreads, NextTreads;
    var item;
    item, left := NextAny(reader, g, stack);
    if stack.Some? && reader.reader.faults == old(reader.reader.faults) {
      OfOnTrees(stack.value, ty, left.value, item);
    }
    match item
    case Err(e) => r := Err(e);
    case Ok(NoneItem) => r := Err(NoneTlv);
    case Ok(Item(t, len)) =>
      if t == ty {
        r := Ok(len);
      } else {
        reader.DropTop();
        r := Err(UnexpectedValue);
      }
  }

  /** `next_integer_opt` and so on. */
  method NextOptOf(reader: Reader, ty: TlvType, ghost g: Ground, ghost stack: Option<seq<Layer>>)
    returns (r: Result<Option<nat>>, ghost left: Option<seq<Layer>>)
    requires Ready(reader, g, stack) && ListInUse(reader, g)
    modifies reader.Repr()
    ensures reader.Steady(old(reader.reader.since), old(reader.reader.pending), old(reader.reader.faults))
    ensures r.Ok? ==>
              && reader.reader.faults == old(reader.reader.faults)
              && Ready(reader, g, left)
              && Grown(old(reader.handles), reader.handles, g.base, if r.value.Some? then Some(Handle(ty, r.value.value)) else None)
    ensures reader.Agrees(old(reader.reader.faults), OptElementOf(reader.reader.data, old(reader.View()), ty), r)
    ensures left.Some? <==> stack.Some?
    ensures stack.Some? && reader.reader.faults == old(reader.reader.faults) ==> NextOptTreads(stack.value, ty, left.value, r)
  {
    hide Message.CheckingReader.Valid, Rel, Tidy, Land, AnyElement, NextAnyTreads, NextOptTreads;
    var item;
    item, left := NextAny(reader, g, stack);
    if stack.Some? && reader.reader.faults == old(reader.reader.faults) {
      OptOfOnTrees(stack.value, ty, left.value, item);
    }
    match item
    case Err(e) => r := Err(e);
    case Ok(NoneItem) => r := Ok(None);
    case Ok(Item(t, len)) =>
      if t == ty {
        r := Ok(Some(len));
      } else {
        reader.DropTop();
        r := Err(UnexpectedValue);
      }
  }

  /** On the trees, the list in use has as many elements left as its handle says. */
  lemma {:induction false} Remaining(reader: Reader, g: Ground, stack: Option<seq<Layer>>)
    requires Ready(reader, g, stack) && ListInUse(reader, g)
    ensures stack.Some? ==>
              && stack.value != [] && Top(stack.value).Items?
              && |Top(stack.value).trees| == reader.handles[|reader.handles| - 1].len
  {
    hide Rel, Tidy, Land, Message.CheckingReader.Valid;
    if stack.Some? {
      RelList(reader.reader.data, reader.View(), g.base, stack.value, g.tail);
    }
  }

  ghost predicate SkipTreads(stack: seq<Layer>, num: nat, left: seq<Layer>, r: Result<()>) {
    && stack != [] && Top(stack).Items?
    && var trees := Top(stack).trees;
    if num <= |trees| then r == Ok(()) && left == Below(stack) + [Items(trees[num..])] else r == Err(EndOfList)
  }

  /** `List::skip` by a consumer. */
  method PassOver(reader: Reader, num: nat, ghost g: Ground, ghost stack: Option<seq<Layer>>)
    returns (r: Result<()>, ghost left: Option<seq<Layer>>)
    requires Ready(reader, g, stack) && ListInUse(reader, g)
    modifies reader.Repr()
    ensures reader.Steady(old(reader.reader.since), old(reader.reader.pending), old(reader.reader.faults))
    ensures r.Ok? ==>
              && reader.reader.faults == old(reader.reader.faults)
              && Ready(reader, g, left)
              && Grown(old(reader.handles), reader.handles, g.base, None)
    ensures reader.Agrees(old(reader.reader.faults), Spec.Skip(old(reader.View()), num), r)
    ensures left.Some? <==> stack.Some?
    ensures stack.Some? && reader.reader.faults == old(reader.reader.faults) ==> SkipTreads(stack.value, num, left.value, r)
  {
    hide Message.CheckingReader.Valid, Rel, Tidy, Land, Apply, Walk, SkipTreads, Grown, Treads;
    ghost var c := reader.View();
    HandlesAfterSkip(reader.reader.data, c, num, g.base);
    var done;
    done, left := reader.Use(DoSkip(num), g.base, stack, g.tail, g.land);
    if stack.Some? && reader.reader.faults == old(reader.reader.faults) {
      SkipOnTrees(stack.value, num, left.value, done);
    }
    r := if done.Ok? then Ok(()) else Err(done.error);
  }

  /** Passing over fields; nothing is done about none, as in the generated accessors. */
  method SkipFields(reader: Reader, num: nat, ghost g: Ground, ghost stack: Option<seq<Layer>>)
    returns (r: Result<()>, ghost left: Option<seq<Layer>>)
    requires Ready(reader, g, stack) && ListInUse(reader, g)
    modifies reader.Repr()
    ensures reader.Steady(old(reader.reader.since), old(reader.reader.pending), old(reader.reader.faults))
    ensures r.Ok? ==>
              && reader.reader.faults == old(reader.reader.faults)
              && Ready(reader, g, left)
              && Grown(old(reader.handles), reader.handles, g.base, None)
    ensures reader.Agrees(old(reader.reader.faults), Pass(old(reader.View()), num), r)
    ensures left.Some? <==> stack.Some?
    ensures stack.Some? && reader.reader.faults == old(reader.reader.faults) ==> SkipTreads(stack.value, num, left.value, r)
  {
    hide Message.CheckingReader.Valid, Rel, Tidy, Land, SkipTreads;
    if num > 0 {
      r, left := PassOver(reader, num, g, stack);
    } else {
      if stack.Some? {
        RelList(reader.reader.data, reader.View(), g.base, stack.value, g.tail);
        SkippedNothing(stack.value, num, Ok(()));
      }
      r, left := Ok(()), stack;
    }
  }

  lemma {:induction false} HandlesAfterSkip(data: seq<byte>, c: Spec.Cursor, num: nat, base: nat)
    requires |c.handles| > base && c.Top().ty == List
    ensures Grown(c.handles, c.handles, base, None)
    ensures var s, t := Apply(data, c, DoSkip(num)), Spec.Skip(c, num);
            && t.Step? && s == Step(t.cursor, if t.result.Ok? then Ok(Moved) else Err(t.result.error))
            && (t.result.Ok? ==> t.result == Ok(()))
    ensures var s := Apply(data, c, DoSkip(num));
            s.Step? && s.result.Ok? ==> Grown(c.handles, s.cursor.handles, base, None)
  {
  }

  lemma {:induction false} SkipOnTrees(stack: seq<Layer>, num: nat, left: seq<Layer>, r: Result<Obs>)
    requires Treads(stack, DoSkip(num), left, r)
    ensures SkipTreads(stack, num, left, if r.Ok? then Ok(()) else Err(r.error))
  {
  }

  lemma {:induction false} SkippedNothing(stack: seq<Layer>, num: nat, r: Result<()>)
    requires stack != [] && Top(stack).Items? && num == 0 && r == Ok(())
    ensures SkipTreads(stack, num, stack, r)
  {
    assert Top(stack).trees[0..] == Top(stack).trees;
    assert Below(stack) + [Top(stack)] == stack;
  }

  // ----------------------------------------------------- values in use

  lemma {:induction false} GrownTop(a: seq<Handle>, b: seq<Handle>, base: nat, added: Option<Handle>)
    requires Grown(a, b, base, added)
    ensures match added
            case None => |b| > base && b[|b| - 1].ty == List
            case Some(h) => |b| > base + 1 && b[|b| - 1] == h && b[|b| - 2].ty == List
  {
  }

  lemma {:induction false} GrownTwice(a: seq<Handle>, b: seq<Handle>, c: seq<Handle>, base: nat, added: Option<Handle>)
    requires Grown(a, b, base, None) && Grown(b, c, base, added)
    ensures Grown(a, c, base, added)
  {
    assert c[..|a| - 1] == c[..|b| - 1];
  }

  lemma {:induction false} GrownBelow(a: seq<Handle>, b: seq<Handle>, base: nat, added: Option<Handle>)
    requires Grown(a, b, base, added)
    ensures base <= |a| && base <= |b| && b[..base] == a[..base]
  {
    assert a[..|a| - 1][..base] == a[..base] && b[..|a| - 1][..base] == b[..base];
  }

  lemma {:induction false} GrownDropped(a: seq<Handle>, b: seq<Handle>, base: nat, h: Handle)
    requires Grown(a, b, base, Some(h))
    ensures Grown(a, b[..|b| - 1], base, None)
  {
    assert b[..|b| - 1][..|a| - 1] == b[..|a| - 1];
  }

  /** The number or flag in use, of `min` to `max` bytes; its handle is gone afterwards. */
  method TakeNumber(reader: Reader, min: nat, max: nat, ghost g: Ground, ghost stack: Option<seq<Layer>>)
    returns (r: Result<seq<byte>>, ghost left: Option<seq<Layer>>)
    requires Ready(reader, g, stack) && Enabled(reader.handles, g.base, DoInto(min, max))
    modifies reader.Repr()
    ensures reader.Steady(old(reader.reader.since), old(reader.reader.pending), old(reader.reader.faults))
    ensures r.Ok? ==>
              && min <= |r.value| <= max
              && reader.reader.faults == old(reader.reader.faults)
              && Ready(reader, g, left)
              && reader.handles == old(reader.handles)[..|old(reader.handles)| - 1]
    ensures reader.Agrees(old(reader.reader.faults), Spec.Into(reader.reader.data, old(reader.View()), min, max), r)
    ensures left.Some? <==> stack.Some?
    ensures stack.Some? && reader.reader.faults == old(reader.reader.faults) ==>
              && stack.value != [] && Top(stack.value).Payload?
              && r == Sized(Top(stack.value).bytes, min, max) && left.value == Below(stack.value)
  {
    hide Message.CheckingReader.Valid, Message.CheckingReader.Repr, Rel, Tidy, Land, Flush;
    var seen;
    seen, left := reader.Use(DoInto(min, max), g.base, stack, g.tail, g.land);
    match seen
    case Err(e) => r := Err(e);
    case Ok(Took(bytes)) => r := Ok(bytes);
    case Ok(_) => assert false;
  }

  /** The string in use, read into a buffer of its size and dropped. */
  method TakeString(reader: Reader, ghost g: Ground, ghost stack: Option<seq<Layer>>)
    returns (r: Result<seq<byte>>, ghost left: Option<seq<Layer>>)
    requires Ready(reader, g, stack) && Enabled(reader.handles, g.base, DoReadString(0))
    modifies reader.Repr()
    ensures reader.Steady(old(reader.reader.since), old(reader.reader.pending), old(reader.reader.faults))
    ensures r.Ok? ==>
              && reader.reader.faults == old(reader.reader.faults)
              && Ready(reader, g, left)
              && reader.handles == old(reader.handles)[..|old(reader.handles)| - 1]
    ensures reader.Agrees(old(reader.reader.faults), Text(reader.reader.data, old(reader.View())), r)
    ensures left.Some? <==> stack.Some?
    ensures stack.Some? && reader.reader.faults == old(reader.reader.faults) ==>
              && stack.value != [] && Top(stack.value).Payload?
              && r == Ok(Top(stack.value).bytes) && left.value == Below(stack.value)
  {
    hide Message.CheckingReader.Valid, Message.CheckingReader.Repr, Rel, Tidy, Land, Next, Spec.Skip, Spec.Into;
    hide Reader.Spent;
    if stack.Some? {
      RelHandles(reader.reader.data, reader.View(), g.base, stack.value, g.tail);
    }
    var size := reader.handles[|reader.handles| - 1].len;
    var seen;
    seen, left := reader.Use(DoReadString(size), g.base, stack, g.tail, g.land);
    match seen
    case Err(e) => r := Err(e);
    case Ok(Took(bytes)) =>
      left := DropValue(reader, g, left);
      r := Ok(bytes);
    case Ok(_) => assert false;
  }

  /** Drops the handle in use. */
  method DropValue(reader: Reader, ghost g: Ground, ghost stack: Option<seq<Layer>>) returns (ghost left: Option<seq<Layer>>)
    requires Ready(reader, g, stack) && |reader.handles| > g.base
    modifies reader.Repr()
    ensures reader.Steady(old(reader.reader.since), old(reader.reader.pending), old(reader.reader.faults))
    ensures reader.reader.faults == old(reader.reader.faults)
    ensures Ready(reader, g, left) && reader.handles == old(reader.handles)[..|old(reader.handles)| - 1]
    ensures reader.Live() && reader.View() == Spec.Drop(old(reader.View()))
    ensures left.Some? <==> stack.Some?
    ensures stack.Some? ==> stack.value != [] && left.value == Below(stack.value)
  {
    hide Message.CheckingReader.Valid, Rel, Tidy, Land;
    ghost var c := reader.View();
    left := stack;
    if stack.Some? {
      DropRefines(reader.reader.data, c, g.base, stack.value, g.tail);
      left := Some(Below(stack.value));
    }
    LandAfterStep(reader.reader.data, c, g.base, DoDrop);
    reader.DropTop();
  }

  /** Drops every handle that the consumer has. */
  method DropAll(reader: Reader, ghost g: Ground, base: nat, ghost stack: Option<seq<Layer>>)
    requires Ready(reader, g, stack) && base == g.base
    modifies reader.Repr()
    ensures reader.Steady(old(reader.reader.since), old(reader.reader.pending), old(reader.reader.faults))
    ensures reader.reader.faults == old(reader.reader.faults)
    ensures reader.View() == DropTo(old(reader.View()), base)
    ensures reader.Stands(base, g.land) && base <= |old(reader.handles)| && reader.handles == old(reader.handles)[..base]
  {
    hide Message.CheckingReader.Valid, Rel, Land;
    ghost var left := stack;
    while |reader.handles| > base
      invariant reader.Steady(old(reader.reader.since), old(reader.reader.pending), old(reader.reader.faults))
      invariant reader.reader.faults == old(reader.reader.faults)
      invariant DropTo(reader.View(), base) == DropTo(old(reader.View()), base)
      invariant Ready(reader, g, left)
      invariant base <= |reader.handles| <= |old(reader.handles)| && reader.handles == old(reader.handles)[..|reader.handles|]
      decreases |reader.handles|
    {
      left := DropValue(reader, g, left);
    }
  }
}
