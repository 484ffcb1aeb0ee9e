/**
 What the lazy cursor stands for: walking the trees. A walker keeps, for every live handle,
 the elements or bytes that are left of it, and nothing is ever owed.
 */
module Walker {
  import opened Bytes
  import opened Errors
  import opened Tlv
  import opened Cursors

  datatype Layer = Payload(ty: TlvType, bytes: seq<byte>) | Items(trees: seq<Tlv>)

  datatype Walked = Walked(stack: seq<Layer>, result: Result<Obs>)

  function Top(stack: seq<Layer>): Layer
    requires stack != []
  {
    stack[|stack| - 1]
  }

  function Below(stack: seq<Layer>): seq<Layer>
    requires stack != []
  {
    stack[..|stack| - 1]
  }

  /** The handle that a layer needs. */
  function HandleOf(f: Layer): Handle {
    match f
    case Payload(ty, bytes) => Handle(ty, |bytes|)
    case Items(trees) => Handle(List, |trees|)
  }

  /** The first of the trees left comes into use. */
  function WalkNext(stack: seq<Layer>): Walked
    requires stack != [] && Top(stack).Items?
  {
    var trees := Top(stack).trees;
    if trees == [] then Walked(stack, Ok(Saw(None)))
    else
      var rest := Below(stack) + [Items(trees[1..])];
      match trees[0]
      case Node(items) => Walked(rest + [Items(items)], Ok(Saw(Some(Item(List, |items|)))))
      case Prim(ty, payload) =>
        if ty == String && payload == [] then Walked(rest, Ok(Saw(Some(NoneItem))))
        else if ty.Other? then Walked(rest, Err(UnsupportedTlvType(ty.raw)))
        else Walked(rest + [Payload(ty, payload)], Ok(Saw(Some(Item(ty, |payload|)))))
  }

  function WalkSkip(stack: seq<Layer>, num: nat): Walked
    requires stack != [] && Top(stack).Items?
  {
    var trees := Top(stack).trees;
    if num > |trees| then Walked(stack, Err(EndOfList))
    else Walked(Below(stack) + [Items(trees[num..])], Ok(Moved))
  }

  function WalkReadString(stack: seq<Layer>, size: nat): Walked
    requires stack != [] && Top(stack).Payload?
  {
    var bytes := Top(stack).bytes;
    if size != |bytes| then Walked(stack, Err(WrongBufferSize))
    else Walked(Below(stack) + [Payload(Top(stack).ty, [])], Ok(Took(bytes)))
  }

  function WalkInto(stack: seq<Layer>, min: nat, max: nat): Walked
    requires stack != [] && Top(stack).Payload?
  {
    var bytes := Top(stack).bytes;
    if min <= |bytes| <= max then Walked(Below(stack), Ok(Took(bytes)))
    else Walked(Below(stack), Err(UnsupportedLen(|bytes|)))
  }

  /** The kind of handle an operation works on. */
  predicate Fits(f: Layer, op: Op) {
    match op
    case DoNext => f.Items?
    case DoSkip(_) => f.Items?
    case DoReadString(_) => f.Payload? && f.ty == String
    case DoInto(_, _) => f.Payload? && (f.ty == Boolean || f.ty == Integer || f.ty == Unsigned)
    case DoDrop => true
  }

  function Walk(stack: seq<Layer>, op: Op): Walked
    requires stack != [] && Fits(Top(stack), op)
  {
    match op
    case DoNext => WalkNext(stack)
    case DoSkip(num) => WalkSkip(stack, num)
    case DoReadString(size) => WalkReadString(stack, size)
    case DoInto(min, max) => WalkInto(stack, min, max)
    case DoDrop => Walked(Below(stack), Ok(Moved))
  }

  predicate WalkGoesOn(w: Walked) {
    w.result.Ok? || Soft(w.result.error)
  }

  // ------------------------------------------------------- the refinement

  /**
   From position `p` on, the data holds what the layers of `stack` have left, the topmost
   first, as much of it as the handles from `base` on say, and ends at `tail`.
   */
  predicate Covers(data: seq<byte>, p: nat, handles: seq<Handle>, base: nat, stack: seq<Layer>, tail: nat)
    requires p <= |data|
    decreases |handles|
  {
    if |handles| <= base then |handles| == base && stack == [] && p == tail
    else
      && stack != []
      && var top, below := handles[|handles| - 1], handles[..|handles| - 1];
      if top.ty == List then
        var r := ParseTrees(data, p, top.len);
        r.Trees? && Top(stack) == Items(r.items) && Covers(data, r.next, below, base, Below(stack), tail)
      else
        && p + top.len <= |data|
        && Top(stack) == Payload(top.ty, data[p..p + top.len])
        && Covers(data, p + top.len, below, base, Below(stack), tail)
  }

  /** The cursor stands for the walker: once its debts are paid, the data covers the walker's stack. */
  predicate Rel(data: seq<byte>, c: Cursor, base: nat, stack: seq<Layer>, tail: nat) {
    && Tidy(c, base)
    && var f := Flush(data, c);
    f.Step? && f.result.Ok? && Covers(data, f.cursor.at, c.handles, base, stack, tail)
  }

  lemma {:induction false} CoversShape(data: seq<byte>, p: nat, handles: seq<Handle>, base: nat, stack: seq<Layer>, tail: nat)
    requires p <= |data| && Covers(data, p, handles, base, stack, tail)
    ensures base + |stack| == |handles|
    ensures stack != [] ==> HandleOf(Top(stack)).len == handles[|handles| - 1].len
    ensures stack != [] ==> HandleOf(Top(stack)).ty == handles[|handles| - 1].ty
    decreases |handles|
  {
    hide ParseTrees;
    if |handles| > base {
      var top, below := handles[|handles| - 1], handles[..|handles| - 1];
      var q := if top.ty == List then ParseTrees(data, p, top.len).next else p + top.len;
      CoversShape(data, q, below, base, Below(stack), tail);
    }
  }

  lemma {:induction false} CoversPush(data: seq<byte>, p: nat, below: seq<Handle>, h: Handle, base: nat, lower: seq<Layer>, f: Layer, tail: nat)
    requires p <= |data| && |below| >= base
    requires if h.ty == List then
               var r := ParseTrees(data, p, h.len);
               r.Trees? && f == Items(r.items) && Covers(data, r.next, below, base, lower, tail)
             else
               && p + h.len <= |data|
               && f == Payload(h.ty, data[p..p + h.len])
               && Covers(data, p + h.len, below, base, lower, tail)
    ensures Covers(data, p, below + [h], base, lower + [f], tail)
  {
    hide ParseTrees;
    assert (below + [h])[..|below|] == below;
    assert Below(lower + [f]) == lower;
  }

  /** The tree at `p` and the position after it, if there is one. */
  function FirstTree(data: seq<byte>, p: nat): (r: Option<(Tlv, nat)>)
    ensures r.Some? ==> p < r.value.1 <= |data|
  {
    match HeaderAt(data, p)
    case Header(ty, len, next) =>
      if ty == List then
        match ParseTrees(data, next, len)
        case Trees(items, q) => Some((Node(items), q))
        case _ => None
      else if next + len > |data| then None
      else Some((Prim(ty, data[next..next + len]), next + len))
    case _ => None
  }

  lemma {:induction false} ParseFirst(data: seq<byte>, p: nat, n: nat)
    requires p <= |data| && n > 0
    ensures match FirstTree(data, p)
            case Some((t, q)) => ParseTrees(data, p, n) == ConsTree(t, ParseTrees(data, q, n - 1))
            case None => !ParseTrees(data, p, n).Trees?
  {
    hide HeaderAt;
  }

  lemma {:induction false} ParseNone(data: seq<byte>, p: nat)
    requires p <= |data|
    ensures ParseTrees(data, p, 0) == Trees([], p)
  {
  }

  /** Trees can be parsed in two goes. */
  lemma {:induction false} ParseSplit(data: seq<byte>, p: nat, k: nat, n: nat)
    requires p <= |data| && k <= n && ParseTrees(data, p, n).Trees?
    ensures var r := ParseTrees(data, p, n); var a := ParseTrees(data, p, k);
            && a.Trees? && a.items == r.items[..k]
            && ParseTrees(data, a.next, n - k) == Trees(r.items[k..], r.next)
    decreases k
  {
    hide ParseTrees, FirstTree;
    ParseNone(data, p);
    if k > 0 {
      ParseFirst(data, p, n);
      ParseFirst(data, p, k);
      var q := FirstTree(data, p).value.1;
      ParseSplit(data, q, k - 1, n - 1);
      var r, rest := ParseTrees(data, p, n), ParseTrees(data, q, n - 1);
      assert r.items[k..] == rest.items[k - 1..];
      assert r.items[..k] == [r.items[0]] + rest.items[..k - 1];
    }
  }

  // -------------------------------------------------- one operation at a time

  /** What the relation says of a list in use. */
  lemma {:induction false} RelList(data: seq<byte>, c: Cursor, base: nat, stack: seq<Layer>, tail: nat)
    requires Rel(data, c, base, stack, tail) && |c.handles| > base && c.Top().ty == List
    ensures stack != [] && Top(stack).Items? && |Top(stack).trees| == c.Top().len
    ensures var f := Flush(data, c);
            && f.Step? && f.result.Ok? && f.cursor.at <= |data|
            && var r := ParseTrees(data, f.cursor.at, c.Top().len);
            && r == Trees(Top(stack).trees, r.next)
            && r.next <= |data|
            && Covers(data, r.next, c.Below(), base, Below(stack), tail)
  {
    hide ParseTrees, Flush;
  }

  /** What the relation says of a value in use: nothing is owed, and its bytes are next. */
  lemma {:induction false} RelValue(data: seq<byte>, c: Cursor, base: nat, stack: seq<Layer>, tail: nat)
    requires Rel(data, c, base, stack, tail) && |c.handles| > base && c.Top().ty != List
    ensures stack != []
    ensures var len := c.Top().len;
            && c.owedBytes == 0 == c.owedTlvs
            && c.at + len <= |data|
            && Top(stack) == Payload(c.Top().ty, data[c.at..c.at + len])
            && Covers(data, c.at + len, c.Below(), base, Below(stack), tail)
  {
    hide ParseTrees, HeaderAt;
    SkipNone(data, c.at);
  }

  /** A cursor that owes nothing stands where it reads. */
  lemma {:induction false} FlushedRel(data: seq<byte>, c: Cursor, base: nat, stack: seq<Layer>, tail: nat)
    requires Tidy(c, base) && c.owedBytes == 0 == c.owedTlvs && c.at <= |data|
    requires Covers(data, c.at, c.handles, base, stack, tail)
    ensures Rel(data, c, base, stack, tail)
  {
    hide Covers, HeaderAt;
    SkipNone(data, c.at);
  }

  lemma {:induction false} NextRefines(data: seq<byte>, c: Cursor, base: nat, stack: seq<Layer>, tail: nat)
    requires Rel(data, c, base, stack, tail) && |c.handles| > base && c.Top().ty == List
    ensures stack != [] && Top(stack).Items?
    ensures var w := WalkNext(stack);
            if w.result.Ok? then
              && Next(data, c).Step?
              && Observed(Next(data, c), item => Saw(item)) == Step(Next(data, c).cursor, w.result)
              && Rel(data, Next(data, c).cursor, base, w.stack, tail)
            else Next(data, c).Step? && Next(data, c).result == Err(w.result.error)
  {
    RelList(data, c, base, stack, tail);
    if c.Top().len > 0 {
      NextElement(data, c, base, stack, tail);
    }
  }

  lemma {:induction false} NextElement(data: seq<byte>, c: Cursor, base: nat, stack: seq<Layer>, tail: nat)
    requires Rel(data, c, base, stack, tail) && |c.handles| > base && c.Top().ty == List && c.Top().len > 0
    ensures stack != [] && Top(stack).Items?
    ensures var w := WalkNext(stack);
            if w.result.Ok? then
              && Next(data, c).Step?
              && Observed(Next(data, c), item => Saw(item)) == Step(Next(data, c).cursor, w.result)
              && Rel(data, Next(data, c).cursor, base, w.stack, tail)
            else Next(data, c).Step? && Next(data, c).result == Err(w.result.error)
  {
    hide Flush, ParseTrees, Covers, HeaderAt, Tidy, Rel, Land;
    RelList(data, c, base, stack, tail);
    RelTidy(data, c, base, stack, tail);
    var p, len, trees := Flush(data, c).cursor.at, c.Top().len, Top(stack).trees;
    ParseFirst(data, p, len);
    var t, q := FirstTree(data, p).value.0, FirstTree(data, p).value.1;
    var rest := ParseTrees(data, q, len - 1);
    assert trees[0] == t && trees[1..] == rest.items;
    var w := WalkNext(stack);
    if w.result.Ok? {
      NextShape(data, c);
      LandAfterNext(data, c, base);
      var h, list, lower := HeaderAt(data, p), c.Below() + [Handle(List, len - 1)], Below(stack) + [Items(trees[1..])];
      CoversPush(data, q, c.Below(), Handle(List, len - 1), base, Below(stack), Items(trees[1..]), tail);
      if h.ty == List {
        CoversPush(data, h.next, list, Handle(List, h.len), base, lower, Items(t.items), tail);
      } else if h.ty != String || h.len > 0 {
        CoversPush(data, h.next, list, Handle(h.ty, h.len), base, lower, Payload(h.ty, t.payload), tail);
      }
      FlushedRel(data, Next(data, c).cursor, base, w.stack, tail);
    }
  }

  lemma {:induction false} RelTidy(data: seq<byte>, c: Cursor, base: nat, stack: seq<Layer>, tail: nat)
    requires Rel(data, c, base, stack, tail)
    ensures Tidy(c, base)
  {
  }

  lemma {:induction false} SkipRefines(data: seq<byte>, c: Cursor, base: nat, stack: seq<Layer>, tail: nat, num: nat)
    requires Rel(data, c, base, stack, tail) && |c.handles| > base && c.Top().ty == List
    ensures stack != [] && Top(stack).Items?
    ensures var w := WalkSkip(stack, num);
            && Observed(Skip(c, num), _ => Moved) == Step(Skip(c, num).cursor, w.result)
            && Rel(data, Skip(c, num).cursor, base, w.stack, tail)
  {
    hide ParseTrees, Covers, HeaderAt, SkipFlat, Rel, Tidy, Land;
    RelList(data, c, base, stack, tail);
    RelTidy(data, c, base, stack, tail);
    var len, trees := c.Top().len, Top(stack).trees;
    if num <= len {
      var n, p := Skip(c, num).cursor, Flush(data, c).cursor.at;
      LandAfterOther(data, c, base, DoSkip(num));
      ParseSplit(data, p, num, len);
      FlatIsDescent(data, p, num);
      SkipAdds(data, c.at + c.owedBytes, c.owedTlvs, num);
      var q := ParseTrees(data, p, num).next;
      CoversPush(data, q, c.Below(), Handle(List, len - num), base, Below(stack), Items(trees[num..]), tail);
      RelHolds(data, n, base, WalkSkip(stack, num).stack, tail, q);
    }
  }

  lemma {:induction false} RelHolds(data: seq<byte>, c: Cursor, base: nat, stack: seq<Layer>, tail: nat, p: nat)
    requires Tidy(c, base) && c.at + c.owedBytes <= |data|
    requires SkipFlat(data, c.at + c.owedBytes, c.owedTlvs) == Landed(p)
    requires Covers(data, p, c.handles, base, stack, tail)
    ensures Rel(data, c, base, stack, tail)
  {
  }

  lemma {:induction false} DropRefines(data: seq<byte>, c: Cursor, base: nat, stack: seq<Layer>, tail: nat)
    requires Rel(data, c, base, stack, tail) && |c.handles| > base
    ensures stack != [] && Rel(data, Drop(c), base, Below(stack), tail)
  {
    hide ParseTrees, Covers, HeaderAt, SkipFlat, Rel, Tidy, Land;
    RelTidy(data, c, base, stack, tail);
    LandAfterOther(data, c, base, DoDrop);
    if c.Top().ty == List {
      RelList(data, c, base, stack, tail);
      var p, len := Flush(data, c).cursor.at, c.Top().len;
      FlatIsDescent(data, p, len);
      SkipAdds(data, c.at + c.owedBytes, c.owedTlvs, len);
      RelHolds(data, Drop(c), base, Below(stack), tail, ParseTrees(data, p, len).next);
    } else {
      RelValue(data, c, base, stack, tail);
      SkipNone(data, c.at + c.Top().len);
      RelHolds(data, Drop(c), base, Below(stack), tail, c.at + c.Top().len);
    }
  }

  /** Reading the whole value in use. */
  lemma {:induction false} TakeRefines(data: seq<byte>, c: Cursor, base: nat, stack: seq<Layer>, tail: nat)
    requires Rel(data, c, base, stack, tail) && |c.handles| > base && c.Top().ty != List
    ensures stack != [] && Top(stack).Payload? && Top(stack).ty == c.Top().ty && |Top(stack).bytes| == c.Top().len
    ensures var t, f := Take(data, c), Top(stack);
            && t.Step? && t.result == Ok(f.bytes)
            && Rel(data, t.cursor, base, Below(stack) + [Payload(f.ty, [])], tail)
  {
    hide ParseTrees, Covers, HeaderAt, Rel;
    RelTidy(data, c, base, stack, tail);
    RelValue(data, c, base, stack, tail);
    var n := Take(data, c).cursor;
    assert data[n.at..n.at + 0] == [];
    CoversPush(data, n.at, c.Below(), Handle(c.Top().ty, 0), base, Below(stack), Payload(c.Top().ty, []), tail);
    FlushedRel(data, n, base, Below(stack) + [Payload(c.Top().ty, [])], tail);
  }

  lemma {:induction false} IntoRefines(data: seq<byte>, c: Cursor, base: nat, stack: seq<Layer>, tail: nat, min: nat, max: nat)
    requires Rel(data, c, base, stack, tail) && |c.handles| > base && c.Top().ty != List
    ensures stack != [] && Top(stack).Payload?
    ensures var w := WalkInto(stack, min, max);
            && Observed(Into(data, c, min, max), bs => Took(bs)) == Step(Into(data, c, min, max).cursor, w.result)
            && Rel(data, Into(data, c, min, max).cursor, base, w.stack, tail)
  {
    hide Rel, Take;
    TakeRefines(data, c, base, stack, tail);
    var len := c.Top().len;
    if min <= len <= max {
      var n := Take(data, c).cursor;
      var emptied := Below(stack) + [Payload(c.Top().ty, [])];
      TakeKeepsHandles(data, c);
      DropRefines(data, n, base, emptied, tail);
      assert Below(emptied) == Below(stack);
    } else {
      DropRefines(data, c, base, stack, tail);
    }
  }

  lemma {:induction false} TakeKeepsHandles(data: seq<byte>, c: Cursor)
    requires c.handles != [] && Take(data, c).Step?
    ensures |Take(data, c).cursor.handles| == |c.handles|
  {
  }

  lemma {:induction false} ReadStringRefines(data: seq<byte>, c: Cursor, base: nat, stack: seq<Layer>, tail: nat, size: nat)
    requires Rel(data, c, base, stack, tail) && |c.handles| > base && c.Top().ty != List
    ensures stack != [] && Top(stack).Payload?
    ensures var w := WalkReadString(stack, size);
            && Observed(ReadString(data, c, size), bs => Took(bs)) == Step(ReadString(data, c, size).cursor, w.result)
            && Rel(data, ReadString(data, c, size).cursor, base, w.stack, tail)
  {
    hide Rel, Take;
    TakeRefines(data, c, base, stack, tail);
  }

  lemma {:induction false} RelHandles(data: seq<byte>, c: Cursor, base: nat, stack: seq<Layer>, tail: nat)
    requires Rel(data, c, base, stack, tail)
    ensures |c.handles| == base + |stack|
    ensures stack != [] ==> c.handles != [] && HandleOf(Top(stack)) == c.Top()
  {
    hide HeaderAt, ParseTrees;
    CoversShape(data, Flush(data, c).cursor.at, c.handles, base, stack, tail);
  }

  /** A layer offers what its handle offers, as long as no value is disguised as a list. */
  lemma {:induction false} FitsEnabled(handles: seq<Handle>, base: nat, f: Layer, op: Op)
    requires |handles| > base && HandleOf(f) == handles[|handles| - 1]
    requires f.Payload? ==> f.ty != List
    ensures Enabled(handles, base, op) <==> Fits(f, op)
  {
  }

  lemma {:induction false} RelPayload(data: seq<byte>, c: Cursor, base: nat, stack: seq<Layer>, tail: nat)
    requires Rel(data, c, base, stack, tail) && stack != [] && Top(stack).Payload?
    ensures Top(stack).ty != List
  {
    hide HeaderAt, ParseTrees;
  }

  /** Whatever the operation, the cursor observes what the walker observes and goes on standing for it. */
  lemma {:induction false} StepRefines(data: seq<byte>, c: Cursor, base: nat, stack: seq<Layer>, tail: nat, op: Op)
    requires Rel(data, c, base, stack, tail)
    ensures Enabled(c.handles, base, op) <==> stack != [] && Fits(Top(stack), op)
    ensures Enabled(c.handles, base, op) ==>
              var s, w := Apply(data, c, op), Walk(stack, op);
              && s.Step? && s.result == w.result
              && (WalkGoesOn(w) ==> Rel(data, s.cursor, base, w.stack, tail))
  {
    hide Rel, Next, Skip, Into, ReadString, WalkNext, WalkSkip, WalkInto, WalkReadString;
    RelHandles(data, c, base, stack, tail);
    if stack != [] {
      if Top(stack).Payload? {
        RelPayload(data, c, base, stack, tail);
      }
      FitsEnabled(c.handles, base, Top(stack), op);
      if Enabled(c.handles, base, op) {
        match op
        case DoNext =>
          NextRefines(data, c, base, stack, tail);
          WalkNextGoesOn(stack);
        case DoSkip(num) => SkipRefines(data, c, base, stack, tail, num);
        case DoReadString(size) => ReadStringRefines(data, c, base, stack, tail, size);
        case DoInto(min, max) => IntoRefines(data, c, base, stack, tail, min, max);
        case DoDrop => DropRefines(data, c, base, stack, tail);
      }
    }
  }

  lemma {:induction false} WalkNextGoesOn(stack: seq<Layer>)
    requires stack != [] && Top(stack).Items?
    ensures WalkGoesOn(WalkNext(stack)) ==> WalkNext(stack).result.Ok?
  {
  }

  // ------------------------------------------------------------------ runs

  /** A run on the trees: what is left and what was observed, or the error that had to be passed on. */
  datatype Tour = Tour(stack: seq<Layer>, log: seq<Result<Obs>>) | TourAborted(error: Error)

  function WalkRun(stack: seq<Layer>, strategy: Strategy, heard: Past, log: seq<Result<Obs>>, steps: nat): Tour
    decreases steps
  {
    if steps == 0 then Tour(stack, log)
    else
      var choice := strategy(heard, log);
      if choice.Reply? || stack == [] || !Fits(Top(stack), choice.op) then Tour(stack, log)
      else
        var w := Walk(stack, choice.op);
        if WalkGoesOn(w) then WalkRun(w.stack, strategy, heard, log + [w.result], steps - 1)
        else TourAborted(w.result.error)
  }

  /**
   The lazy cursor refines walking the trees: for every consumer, reading, skipping and
   dropping, half-done or not, as it decides by what it has observed, each operation gives the
   same result as on the trees. At the end the cursor stands for what the walker has left,
   with the data ending at the same place.
   */
  lemma {:induction false} RunRefines(data: seq<byte>, c: Cursor, base: nat, stack: seq<Layer>, tail: nat,
      strategy: Strategy, heard: Past, log: seq<Result<Obs>>, steps: nat)
    requires Rel(data, c, base, stack, tail)
    ensures match WalkRun(stack, strategy, heard, log, steps)
            case Tour(left, observed) =>
              && Run(data, c, base, strategy, heard, log, steps).Ran?
              && Run(data, c, base, strategy, heard, log, steps).log == observed
              && Rel(data, Run(data, c, base, strategy, heard, log, steps).cursor, base, left, tail)
            case TourAborted(e) =>
              && Run(data, c, base, strategy, heard, log, steps).Aborted?
              && Run(data, c, base, strategy, heard, log, steps).error == e
    decreases steps
  {
    hide Rel, Fits, Walk, Apply;
    var choice := strategy(heard, log);
    if steps > 0 && choice.Do? {
      StepRefines(data, c, base, stack, tail, choice.op);
      if Enabled(c.handles, base, choice.op) {
        var w := Walk(stack, choice.op);
        if WalkGoesOn(w) {
          RunRefines(data, Apply(data, c, choice.op).cursor, base, w.stack, tail, strategy, heard, log + [w.result], steps - 1);
        }
      }
    }
  }

  /** Whatever is done, the list at the bottom only ever loses elements from the front. */
  lemma {:induction false} BottomIsSuffix(stack: seq<Layer>, trees: seq<Tlv>, strategy: Strategy,
      heard: Past, log: seq<Result<Obs>>, steps: nat)
    requires Suffix(stack, trees)
    ensures var t := WalkRun(stack, strategy, heard, log, steps);
            t.Tour? ==> Suffix(t.stack, trees)
    decreases steps
  {
    hide Fits, Walk, Suffix;
    var choice := strategy(heard, log);
    if steps > 0 && choice.Do? && stack != [] && Fits(Top(stack), choice.op) {
      StepKeepsSuffix(stack, trees, choice.op);
      var w := Walk(stack, choice.op);
      BottomIsSuffix(w.stack, trees, strategy, heard, log + [w.result], steps - 1);
    }
  }

  predicate Suffix(stack: seq<Layer>, trees: seq<Tlv>) {
    stack != [] ==>
      && stack[0].Items?
      && var rest := stack[0].trees;
      |rest| <= |trees| && rest == trees[|trees| - |rest|..]
  }

  lemma {:induction false} StepKeepsSuffix(stack: seq<Layer>, trees: seq<Tlv>, op: Op)
    requires stack != [] && Fits(Top(stack), op) && Suffix(stack, trees)
    ensures Suffix(Walk(stack, op).stack, trees)
  {
  }

  /**
   Field access does not depend on how the fields before were treated. Whatever a consumer has
   done with a list and the elements in it, once it has the list in use again with `m`
   elements left, the next element it gets is the `m`th last one.
   */
  lemma {:induction false} NextFieldIsFixed(data: seq<byte>, c: Cursor, base: nat, trees: seq<Tlv>, tail: nat,
      strategy: Strategy, heard: Past, steps: nat)
    requires Rel(data, c, base, [Items(trees)], tail)
    requires var ran := Run(data, c, base, strategy, heard, [], steps); ran.Ran? && |ran.cursor.handles| == base + 1
    ensures var d := Run(data, c, base, strategy, heard, [], steps).cursor;
            && d.Top().ty == List && d.Top().len <= |trees|
            && var w := WalkNext([Items(trees[|trees| - d.Top().len..])]);
            && Next(data, d).Step?
            && Observed(Next(data, d), item => Saw(item)).result == w.result
  {
    hide Rel, Next, Fits, Walk, Run, WalkRun;
    RunRefines(data, c, base, [Items(trees)], tail, strategy, heard, [], steps);
    BottomIsSuffix([Items(trees)], trees, strategy, heard, [], steps);
    var d, left := Run(data, c, base, strategy, heard, [], steps).cursor, WalkRun([Items(trees)], strategy, heard, [], steps).stack;
    RelHandles(data, d, base, left, tail);
    NextRefines(data, d, base, left, tail);
    assert left == [left[0]];
  }

  /** All values in the tree have types that the cursor supports. */
  predicate Supported(t: Tlv) {
    match t
    case Prim(ty, _) => !ty.Other?
    case Node(items) => forall i :: 0 <= i < |items| ==> Supported(items[i])
  }

  predicate AllSupported(trees: seq<Tlv>) {
    forall i :: 0 <= i < |trees| ==> Supported(trees[i])
  }

  predicate StackSupported(stack: seq<Layer>) {
    forall i :: 0 <= i < |stack| && stack[i].Items? ==> AllSupported(stack[i].trees)
  }

  lemma {:induction false} WalkKeepsSupported(stack: seq<Layer>, op: Op)
    requires stack != [] && Fits(Top(stack), op) && StackSupported(stack)
    ensures StackSupported(Walk(stack, op).stack) && WalkGoesOn(Walk(stack, op))
  {
    var top, below := Top(stack), Below(stack);
    assert StackSupported(below);
    if top.Items? {
      assert AllSupported(top.trees);
      if op.DoNext? && top.trees != [] {
        assert Supported(top.trees[0]);
      }
    }
  }

  /** On supported trees no consumer ever meets an error it would have to pass on. */
  lemma {:induction false} WalkNeverAborts(stack: seq<Layer>, strategy: Strategy,
      heard: Past, log: seq<Result<Obs>>, steps: nat)
    requires StackSupported(stack)
    ensures WalkRun(stack, strategy, heard, log, steps).Tour?
    decreases steps
  {
    hide StackSupported, Walk, Fits;
    var choice := strategy(heard, log);
    if steps > 0 && choice.Do? && stack != [] && Fits(Top(stack), choice.op) {
      WalkKeepsSupported(stack, choice.op);
      var w := Walk(stack, choice.op);
      WalkNeverAborts(w.stack, strategy, heard, log + [w.result], steps - 1);
    }
  }
}
