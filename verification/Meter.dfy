/** The meter's callback: it looks through the entries of a list response for its two readings. */
module Meter {
  import opened Bytes
  import opened Errors
  import opened Tlv
  import opened Spec = Cursors
  import opened Walker
  import opened Readings
  import opened MeterSteps
  import opened Steps
  import opened Consumer
  import opened Fields
  import opened TlvReader
  import IoFutures
  import Message
  import Values

  /** On the trees: `r` is what `spec` says of the fields, and `k` of them have been gone through. */
  ghost predicate FieldsRead<T>(stack: seq<Layer>, left: seq<Layer>, k: nat, spec: seq<Tlv> -> Result<T>, r: Result<T>) {
    && stack != [] && Top(stack).Items?
    && var trees := Top(stack).trees;
    && r == spec(trees)
    && (r.Ok? ==> k <= |trees| && left == Below(stack) + [Items(trees[k..])])
  }

  /** The first field, which must be a string; nothing if it is longer than the buffer. */
  function NameOf(fields: seq<Tlv>): Result<Option<seq<byte>>> {
    var t :- FieldAt(fields, 0);
    var name :- StringOf(t);
    Ok(if |name| > NAME_BUFFER then None else Some(name))
  }

  lemma {:induction false} ScalerAtNext(trees: seq<Tlv>)
    ensures trees != [] && trees[0] == Prim(String, []) ==> ScalerAt(trees, 0) == Ok(0)
    ensures !(trees != [] && trees[0] == Prim(String, [])) ==>
              match ExpectNext(trees, Integer)
              case Err(e) => ScalerAt(trees, 0) == Err(e)
              case Ok(f) =>
                && trees != [] && f == LayerOf(trees[0]) && f.Payload? && HandleOf(f) == Handle(Integer, |f.bytes|)
                && ScalerAt(trees, 0) == if |f.bytes| == 1 then Ok(Values.Value(f.bytes, true)) else Err(UnsupportedLen(|f.bytes|))
  {
  }

  lemma {:induction false} NameOfNext(trees: seq<Tlv>)
    ensures match Opened(trees, String, false)
            case Err(e) => NameOf(trees) == Err(e)
            case Ok(f) =>
              && trees != [] && f == LayerOf(trees[0]) && f.Payload? && HandleOf(f) == Handle(String, |f.bytes|)
              && NameOf(trees) == Ok(if |f.bytes| > NAME_BUFFER then None else Some(f.bytes))
  {
  }

  function ScalerAt(fields: seq<Tlv>, skip: nat): Result<int> {
    var t :- FieldAt(fields, skip);
    ScalerOf(t)
  }

  function FieldValue(schema: Schema, fields: seq<Tlv>, skip: nat): Result<Option<int>> {
    var t :- FieldAt(fields, skip);
    ValueOf(schema, t)
  }

  method ReadName(reader: Reader, ghost g: Ground, ghost stack: Option<seq<Layer>>)
    returns (r: Result<Option<seq<byte>>>, ghost left: Option<seq<Layer>>)
    requires Ready(reader, g, stack) && ListInUse(reader, g)
    modifies reader.Repr()
    ensures reader.Steady(old(reader.reader.since), old(reader.reader.pending), old(reader.reader.faults))
    ensures r.Ok? ==>
              && reader.reader.faults == old(reader.reader.faults)
              && Ready(reader, g, left)
              && Grown(old(reader.handles), reader.handles, g.base, None)
    ensures reader.Agrees(old(reader.reader.faults), NameStep(reader.reader.data, old(reader.View())), r)
    ensures left.Some? <==> stack.Some?
    ensures stack.Some? && reader.reader.faults == old(reader.reader.faults) ==>
              FieldsRead(stack.value, left.value, 1, fields => NameOf(fields), r)
  {
    hide ElementOf, AnyElement, OptElementOf, Into, Message.CheckingReader.Valid, Rel, Tidy, Land, Expect;
    hide SomeNameStep, Reader.Live, Reader.Spent, NameOf, ExpectNext, Top, Below, Element, Grown, Ready, Fields.Opened;
    Remaining(reader, g, stack);
    if stack.Some? {
      NameOfNext(Top(stack.value).trees);
    }
    var field := new Field(reader, String, false, if stack.Some? then Top(stack.value).trees else []);
    var size;
    size, left := field.Parse(g, stack);
    if size.Err? {
      return Err(size.error), left;
    }
    GrownTop(old(reader.handles), reader.handles, g.base, Some(Handle(String, size.value)));
    GrownDropped(old(reader.handles), reader.handles, g.base, Handle(String, size.value));
    if stack.Some? {
      Pushed(Below(stack.value) + [Items(field.fields[1..])], LayerOf(field.fields[0]));
      Pushed(Below(stack.value), Items(field.fields[1..]));
    }
    r, left := TakeName(reader, field, size.value, g, left);
  }

  /** Reads the name in use, unless it is too long, and finishes its field. */
  method TakeName(reader: Reader, field: Field, size: nat, ghost g: Ground, ghost stack: Option<seq<Layer>>)
    returns (r: Result<Option<seq<byte>>>, ghost left: Option<seq<Layer>>)
    requires field.reader == reader && field !in reader.Repr() && field.parsed
    requires Ready(reader, g, stack) && Enabled(reader.handles, g.base, DoReadString(0))
    requires |reader.handles| > g.base + 1 && reader.handles[|reader.handles| - 2].ty == List
    requires size == reader.handles[|reader.handles| - 1].len
    requires stack.Some? ==> stack.value != [] && field.InPlace(Some(Below(stack.value)))
    modifies reader.Repr()
    ensures reader.Steady(old(reader.reader.since), old(reader.reader.pending), old(reader.reader.faults))
    ensures r.Ok? ==>
              && reader.reader.faults == old(reader.reader.faults)
              && Ready(reader, g, left)
              && reader.handles == old(reader.handles)[..|old(reader.handles)| - 1]
    ensures reader.Agrees(old(reader.reader.faults), SomeNameStep(reader.reader.data, old(reader.View()), size), r)
    ensures left.Some? <==> stack.Some?
    ensures stack.Some? && reader.reader.faults == old(reader.reader.faults) ==>
              && stack.value != [] && Top(stack.value).Payload?
              && left.value == Below(stack.value) && size == |Top(stack.value).bytes|
              && r == Ok(if size > NAME_BUFFER then None else Some(Top(stack.value).bytes))
  {
    hide ElementOf, AnyElement, OptElementOf, Into, Message.CheckingReader.Valid, Rel, Tidy, Land, Text;
    if stack.Some? {
      LayerOfHandle(reader, g, stack.value);
    }
    if size > NAME_BUFFER {
      left := DropValue(reader, g, stack);
      return Ok(None), left;
    }
    var name;
    name, left := TakeString(reader, g, stack);
    if name.Err? {
      return Err(name.error), left;
    }
    var done;
    done, left := field.Finish(g, left);
    r := Ok(Some(name.value));
  }

  /** The optional scaler behind `skip` further fields; 0 if it is absent. */
  method ReadScaler(reader: Reader, skip: nat, ghost g: Ground, ghost stack: Option<seq<Layer>>)
    returns (r: Result<int>, ghost left: Option<seq<Layer>>)
    requires Ready(reader, g, stack) && ListInUse(reader, g)
    modifies reader.Repr()
    ensures reader.Steady(old(reader.reader.since), old(reader.reader.pending), old(reader.reader.faults))
    ensures r.Ok? ==>
              && reader.reader.faults == old(reader.reader.faults)
              && Ready(reader, g, left)
              && Grown(old(reader.handles), reader.handles, g.base, None)
    ensures reader.Agrees(old(reader.reader.faults), ScalerStep(reader.reader.data, old(reader.View()), skip), r)
    ensures left.Some? <==> stack.Some?
    ensures stack.Some? && reader.reader.faults == old(reader.reader.faults) ==>
              FieldsRead(stack.value, left.value, skip + 1, fields => ScalerAt(fields, skip), r)
  {
    hide ElementOf, AnyElement, OptElementOf, Into, Message.CheckingReader.Valid, Message.CheckingReader.Repr, Ready;
    hide Expect, IoFutures.FromBytes, Values.Extend, Values.Value, Reader.Live, Reader.Spent, ExpectNext, ScalerOf;
    hide Grown, Top, Below;
    var skipped;
    skipped, left := SkipFields(reader, skip, g, stack);
    if skipped.Err? {
      return Err(skipped.error), left;
    }
    ghost var before, rest := reader.handles, left;
    var size;
    SkippedField(stack, skip, rest);
    if stack.Some? {
      ScalerAtNext(Top(rest.value).trees);
    }
    size, left := NextOptOf(reader, Integer, g, left);
    if size.Err? {
      return Err(size.error), left;
    }
    if size.value.None? {
      GrownTwice(old(reader.handles), before, reader.handles, g.base, None);
      return Ok(0), left;
    }
    GrownTop(before, reader.handles, g.base, Some(Handle(Integer, size.value.value)));
    GrownTwice(old(reader.handles), before, reader.handles, g.base, Some(Handle(Integer, size.value.value)));
    GrownDropped(old(reader.handles), reader.handles, g.base, Handle(Integer, size.value.value));
    if stack.Some? {
      ghost var trees := Top(rest.value).trees;
      Pushed(Below(rest.value) + [Items(trees[1..])], LayerOf(trees[0]));
    }
    var bytes;
    bytes, left := TakeNumber(reader, 1, 1, g, left);
    if bytes.Err? {
      return Err(bytes.error), left;
    }
    Values.ExtendKeepsValue(bytes.value, 1, true);
    r := Ok(IoFutures.FromBytes(IoFutures.NumberType(1, true, false), Values.Extend(bytes.value, 1, true)));
  }

  /** Takes the item that a value was found to be; what is left of its handle is dropped. */
  method TakeValue(reader: Reader, schema: Schema, item: Item, ghost g: Ground, ghost stack: Option<seq<Layer>>)
    returns (r: Result<Option<int>>, ghost left: Option<seq<Layer>>)
    requires item.Item? && !item.ty.Other?
    requires Ready(reader, g, stack) && |reader.handles| > g.base
    requires reader.handles[|reader.handles| - 1] == Handle(item.ty, item.len)
    modifies reader.Repr()
    ensures reader.Steady(old(reader.reader.since), old(reader.reader.pending), old(reader.reader.faults))
    ensures r.Ok? ==>
              && reader.reader.faults == old(reader.reader.faults)
              && Ready(reader, g, left)
              && reader.handles == old(reader.handles)[..|old(reader.handles)| - 1]
    ensures reader.Agrees(old(reader.reader.faults), TakeStep(schema, reader.reader.data, old(reader.View()), item), r)
    ensures left.Some? <==> stack.Some?
    ensures stack.Some? && reader.reader.faults == old(reader.reader.faults) ==>
              && stack.value != []
              && r == LayerValue(schema, Top(stack.value))
              && (r.Ok? ==> left.value == Below(stack.value))
  {
    hide ElementOf, AnyElement, OptElementOf, Into, Message.CheckingReader.Valid, Message.CheckingReader.Repr, Rel;
    hide Tidy, Land, Values.Extend, Values.Value, IoFutures.FromBytes;
    if stack.Some? {
      LayerOfHandle(reader, g, stack.value);
    }
    var signed := item.ty == Integer;
    var bytes;
    left := stack;
    if item.ty == Boolean {
      bytes, left := TakeNumber(reader, 1, 1, g, left);
      r := if bytes.Ok? then Ok(None) else Err(bytes.error);
    } else if item.ty == String || (item.ty == List && schema.subLists) {
      left := DropValue(reader, g, left);
      r := Ok(None);
    } else if item.ty == List || item.len < 1 || item.len > 8 {
      r := Err(UnexpectedValue);
    } else {
      var width := Values.Choose(item.len, signed).width;
      bytes, left := TakeNumber(reader, Values.LenRange(width).0, Values.LenRange(width).1 - 1, g, left);
      if bytes.Err? {
        return Err(bytes.error), left;
      }
      Values.ExtendKeepsValue(bytes.value, width, signed);
      r := Ok(Some(IoFutures.FromBytes(IoFutures.NumberType(width, signed, false), Values.Extend(bytes.value, width, signed))));
    }
  }

  /** The value behind `skip` further fields. */
  method ReadValue(reader: Reader, schema: Schema, skip: nat, ghost g: Ground, ghost stack: Option<seq<Layer>>)
    returns (r: Result<Option<int>>, ghost left: Option<seq<Layer>>)
    requires Ready(reader, g, stack) && ListInUse(reader, g)
    modifies reader.Repr()
    ensures reader.Steady(old(reader.reader.since), old(reader.reader.pending), old(reader.reader.faults))
    ensures r.Ok? ==>
              && reader.reader.faults == old(reader.reader.faults)
              && Ready(reader, g, left)
              && Grown(old(reader.handles), reader.handles, g.base, None)
    ensures reader.Agrees(old(reader.reader.faults), ValueStep(schema, reader.reader.data, old(reader.View()), skip), r)
    ensures left.Some? <==> stack.Some?
    ensures stack.Some? && reader.reader.faults == old(reader.reader.faults) ==>
              FieldsRead(stack.value, left.value, skip + 1, fields => FieldValue(schema, fields, skip), r)
  {
    hide ElementOf, AnyElement, OptElementOf, Into, Message.CheckingReader.Valid, Message.CheckingReader.Repr, Ready;
    hide LayerValue, ValueOf, Top, Below;
    var skipped;
    skipped, left := SkipFields(reader, skip, g, stack);
    if skipped.Err? {
      return Err(skipped.error), left;
    }
    ghost var before, rest := reader.handles, left;
    SkippedField(stack, skip, rest);
    var item;
    item, left := NextAny(reader, g, left);
    if rest.Some? && reader.reader.faults == old(reader.reader.faults) {
      AnyValue(schema, rest.value, left.value, item);
    }
    if item.Err? {
      return Err(item.error), left;
    }
    if item.value.NoneItem? {
      return Err(UnexpectedValue), left;
    }
    ghost var h := Handle(item.value.ty, item.value.len);
    GrownTwice(old(reader.handles), before, reader.handles, g.base, Some(h));
    GrownDropped(old(reader.handles), reader.handles, g.base, h);
    r, left := TakeValue(reader, schema, item.value, g, left);
  }

  lemma {:induction false} AnyValue(schema: Schema, stack: seq<Layer>, left: seq<Layer>, r: Result<Item>)
    requires NextAnyTreads(stack, left, r)
    ensures var trees := Top(stack).trees;
            match r
            case Err(e) => FieldValue(schema, trees, 0) == Err(e)
            case Ok(NoneItem) => FieldValue(schema, trees, 0) == Err(UnexpectedValue)
            case Ok(Item(_, _)) =>
              && trees != [] && left != []
              && LayerValue(schema, Top(left)) == ValueOf(schema, trees[0])
              && Below(left) == Below(stack) + [Items(trees[1..])]
  {
    var trees := Top(stack).trees;
    if trees != [] {
      Pushed(Below(stack) + [Items(trees[1..])], LayerOf(trees[0]));
    }
  }

  /** A value in use, as the number it stands for. */
  function LayerValue(schema: Schema, f: Layer): Result<Option<int>> {
    match f
    case Items(trees) => ValueOf(schema, Node(trees))
    case Payload(ty, bytes) => if ty == String then Ok(None) else ValueOf(schema, Prim(ty, bytes))
  }

  lemma {:induction false} LayerOfHandle(reader: Reader, g: Ground, stack: seq<Layer>)
    requires Ready(reader, g, Some(stack)) && |reader.handles| > g.base
    ensures stack != [] && HandleOf(Top(stack)) == reader.handles[|reader.handles| - 1]
    ensures Top(stack).Payload? ==> Top(stack).ty != List
  {
    hide Rel, Tidy, Land, Message.CheckingReader.Valid;
    RelHandles(reader.reader.data, reader.View(), g.base, stack, g.tail);
    if stack != [] && Top(stack).Payload? {
      RelPayload(reader.reader.data, reader.View(), g.base, stack, g.tail);
    }
  }

  /** After skipping, the element that comes next is the field with that index. */
  lemma {:induction false} SkippedField(stack: Option<seq<Layer>>, skip: nat, rest: Option<seq<Layer>>)
    requires stack.Some? ==> rest.Some? && SkipTreads(stack.value, skip, rest.value, Ok(()))
    ensures stack.Some? ==>
              && rest.value != [] && Top(rest.value).Items?
              && Below(rest.value) == Below(stack.value)
              && Top(stack.value).Items?
              && var fields, trees := Top(stack.value).trees, Top(rest.value).trees;
              && FieldAt(trees, 0) == FieldAt(fields, skip)
              && (trees != [] ==> trees[0] == fields[skip] && trees[1..] == fields[skip + 1..] && skip < |fields|)
  {
    if stack.Some? {
      Pushed(Below(stack.value), Items(Top(stack.value).trees[skip..]));
    }
  }

  /** The scaler and the value of an entry, given the fields behind its name. */
  function NumbersOf(schema: Schema, fields: seq<Tlv>): Result<(int, Option<int>)>
    requires Consistent(schema)
  {
    var scaler :- ScalerAt(fields, schema.scaler - 1);
    var value :- FieldValue(schema, fields, schema.value - 1);
    Ok((scaler, value))
  }

  /** The fields of an entry are read one after the other, each behind the ones it skips. */
  lemma {:induction false} EntrySteps(schema: Schema, fields: seq<Tlv>)
    requires Consistent(schema)
    ensures Readings.ReadEntry(schema, fields)
            == match NameOf(fields)
               case Err(e) => Err(e)
               case Ok(None) => Ok(TooLong)
               case Ok(Some(name)) =>
                 assert fields != [];
                 match NumbersOf(schema, fields[1..])
                 case Err(e) => Err(e)
                 case Ok((scaler, value)) => Ok(Entry(name, scaler, value))
  {
    hide StringOf, ScalerOf, ValueOf;
  }

  lemma {:induction false} NumbersSteps(schema: Schema, fields: seq<Tlv>)
    requires Consistent(schema)
    ensures match ScalerAt(fields, schema.scaler - 1)
            case Err(e) => NumbersOf(schema, fields) == Err(e)
            case Ok(scaler) =>
              && schema.scaler <= |fields|
              && NumbersOf(schema, fields)
                 == match FieldValue(schema, fields[schema.scaler..], schema.value - schema.scaler - 1)
                    case Err(e) => Err(e)
                    case Ok(value) => Ok((scaler, value))
  {
    hide ScalerOf, ValueOf;
  }

  /** Reads the two numbers of an entry whose name has been read, and drops the entry. */
  method ReadNumbers(reader: Reader, schema: Schema, ghost g: Ground, ghost stack: Option<seq<Layer>>)
    returns (r: Result<(int, Option<int>)>, ghost left: Option<seq<Layer>>)
    requires Consistent(schema)
    requires Ready(reader, g, stack) && ListInUse(reader, g)
    modifies reader.Repr()
    ensures reader.Steady(old(reader.reader.since), old(reader.reader.pending), old(reader.reader.faults))
    ensures r.Ok? ==>
              && reader.reader.faults == old(reader.reader.faults)
              && Ready(reader, g, left)
              && reader.handles == old(reader.handles)[..|old(reader.handles)| - 1]
    ensures reader.Agrees(old(reader.reader.faults), NumbersStep(schema, reader.reader.data, old(reader.View())), r)
    ensures left.Some? <==> stack.Some?
    ensures stack.Some? && reader.reader.faults == old(reader.reader.faults) ==>
              && stack.value != [] && Top(stack.value).Items?
              && r == NumbersOf(schema, Top(stack.value).trees)
              && (r.Ok? ==> left.value == Below(stack.value))
  {
    hide ElementOf, AnyElement, OptElementOf, Into, Message.CheckingReader.Valid, Message.CheckingReader.Repr, Ready;
    hide ScalerAt, FieldValue, NumbersOf, ScalerStep, ValueStep, Reader.Live, Reader.Spent, Top, Below;
    ghost var before := reader.handles;
    if stack.Some? {
      NumbersSteps(schema, if stack.value != [] && Top(stack.value).Items? then Top(stack.value).trees else []);
    }
    var scaler;
    scaler, left := ReadScaler(reader, schema.scaler - 1, g, stack);
    if scaler.Err? {
      return Err(scaler.error), left;
    }
    ghost var scaled := reader.handles;
    if stack.Some? {
      Pushed(Below(stack.value), Items(Top(stack.value).trees[schema.scaler..]));
    }
    var value;
    value, left := ReadValue(reader, schema, schema.value - schema.scaler - 1, g, left);
    if value.Err? {
      return Err(value.error), left;
    }
    GrownTwice(before, scaled, reader.handles, g.base, None);
    if stack.Some? {
      Pushed(Below(stack.value), Items(Top(stack.value).trees[schema.scaler..][schema.value - schema.scaler..]));
    }
    left := DropValue(reader, g, left);
    r := Ok((scaler.value, value.value));
  }

  /** One entry, whose fields are in use; its handle is gone afterwards. */
  method ReadEntry(reader: Reader, schema: Schema, ghost g: Ground, ghost stack: Option<seq<Layer>>)
    returns (r: Result<Entry>, ghost left: Option<seq<Layer>>)
    requires Consistent(schema)
    requires Ready(reader, g, stack) && ListInUse(reader, g)
    modifies reader.Repr()
    ensures reader.Steady(old(reader.reader.since), old(reader.reader.pending), old(reader.reader.faults))
    ensures r.Ok? ==>
              && reader.reader.faults == old(reader.reader.faults)
              && Ready(reader, g, left)
              && reader.handles == old(reader.handles)[..|old(reader.handles)| - 1]
    ensures reader.Agrees(old(reader.reader.faults), EntryStep(schema, reader.reader.data, old(reader.View())), r)
    ensures left.Some? <==> stack.Some?
    ensures stack.Some? && reader.reader.faults == old(reader.reader.faults) ==>
              && stack.value != [] && Top(stack.value).Items?
              && r == Readings.ReadEntry(schema, Top(stack.value).trees)
              && (r.Ok? ==> left.value == Below(stack.value))
  {
    hide ElementOf, AnyElement, OptElementOf, Into, Message.CheckingReader.Valid, Message.CheckingReader.Repr, Ready;
    hide NameOf, NumbersOf, Readings.ReadEntry, NameStep, NumbersStep, Reader.Live, Reader.Spent, Top, Below;
    if stack.Some? {
      EntrySteps(schema, if stack.value != [] && Top(stack.value).Items? then Top(stack.value).trees else []);
    }
    var name;
    name, left := ReadName(reader, g, stack);
    if name.Err? {
      return Err(name.error), left;
    }
    if stack.Some? {
      Pushed(Below(stack.value), Items(Top(stack.value).trees[1..]));
    }
    if name.value.None? {
      left := DropValue(reader, g, left);
      return Ok(TooLong), left;
    }
    var numbers;
    numbers, left := ReadNumbers(reader, schema, g, left);
    if numbers.Err? {
      return Err(numbers.error), left;
    }
    r := Ok(Entry(name.value.value, numbers.value.0, numbers.value.1));
  }

  function TagOf(body: seq<Tlv>): Result<nat> {
    var t :- FieldAt(body, 0);
    var bytes :- NumberOf(t, Unsigned, 1, 4);
    Ok(Be(bytes))
  }

  /** A choice whose two elements, a tag and what it selects, are in use. */
  class Choice {
    const reader: Reader
    var parsed: bool

    constructor (reader: Reader)
      ensures this.reader == reader && !parsed
    {
      this.reader, parsed := reader, false;
    }

    /** The tag; a choice can be read only once. */
    method ReadTag(ghost g: Ground, ghost stack: Option<seq<Layer>>)
      returns (r: Result<nat>, ghost left: Option<seq<Layer>>)
      requires this !in reader.Repr() && Ready(reader, g, stack) && ListInUse(reader, g)
      modifies reader.Repr(), `parsed
      ensures parsed
      ensures old(parsed) ==> r == Err(CantParseTwice) && left == stack && Ready(reader, g, left) && reader.View() == old(reader.View())
      ensures reader.Steady(old(reader.reader.since), old(reader.reader.pending), old(reader.reader.faults))
      ensures r.Ok? ==>
                && reader.reader.faults == old(reader.reader.faults)
                && Ready(reader, g, left)
                && Grown(old(reader.handles), reader.handles, g.base, None)
      ensures !old(parsed) ==> reader.Agrees(old(reader.reader.faults), TagStep(reader.reader.data, old(reader.View())), r)
      ensures left.Some? <==> stack.Some?
      ensures stack.Some? && !old(parsed) && reader.reader.faults == old(reader.reader.faults) ==>
                FieldsRead(stack.value, left.value, 1, fields => TagOf(fields), r)
    {
      hide ElementOf, AnyElement, OptElementOf, Into, Message.CheckingReader.Valid, Rel, Tidy, Land, Expect, Be;
      hide Values.Extend, Top, Below;
      if parsed {
        return Err(CantParseTwice), stack;
      }
      parsed := true;
      var size;
      size, left := NextOf(reader, Unsigned, g, stack);
      if size.Err? {
        return Err(size.error), left;
      }
      GrownDropped(old(reader.handles), reader.handles, g.base, Handle(Unsigned, size.value));
      if stack.Some? {
        ghost var trees := Top(stack.value).trees;
        ExpectShape(trees, Unsigned);
        Pushed(Below(stack.value) + [Items(trees[1..])], LayerOf(trees[0]));
      }
      var bytes;
      bytes, left := TakeNumber(reader, 1, 4, g, left);
      if bytes.Err? {
        return Err(bytes.error), left;
      }
      var width := Values.RelaxedWidth(|bytes.value|);
      Values.ExtendKeepsValue(bytes.value, width, false);
      r := Ok(IoFutures.FromBytes(IoFutures.NumberType(width, false, false), Values.Extend(bytes.value, width, false)));
    }
  }

  /** The list that comes next, with its elements; its handle goes on top. */
  function ListAt(fields: seq<Tlv>, skip: nat): Result<seq<Tlv>> {
    var t :- FieldAt(fields, skip);
    ListOf(t)
  }

  /** On the trees: the list at index `skip` has come on top of the fields after it. */
  ghost predicate ListOpened(stack: seq<Layer>, left: seq<Layer>, skip: nat, r: Result<()>) {
    && stack != [] && Top(stack).Items?
    && match ListAt(Top(stack).trees, skip)
       case Err(e) => r == Err(e)
       case Ok(items) => r.Ok? && left != [] && Top(left) == Items(items)
  }

  method OpenList(reader: Reader, skip: nat, ghost g: Ground, ghost stack: Option<seq<Layer>>)
    returns (r: Result<()>, ghost left: Option<seq<Layer>>)
    requires Ready(reader, g, stack) && ListInUse(reader, g)
    modifies reader.Repr()
    ensures reader.Steady(old(reader.reader.since), old(reader.reader.pending), old(reader.reader.faults))
    ensures r.Ok? ==>
              && reader.reader.faults == old(reader.reader.faults)
              && Ready(reader, g, left) && ListInUse(reader, g)
              && reader.SameBelow(g.base, old(reader.handles))
    ensures reader.Agrees(old(reader.reader.faults), ListStep(reader.reader.data, old(reader.View()), skip), r)
    ensures left.Some? <==> stack.Some?
    ensures stack.Some? && reader.reader.faults == old(reader.reader.faults) ==> ListOpened(stack.value, left.value, skip, r)
  {
    hide ElementOf, AnyElement, OptElementOf, Into, Message.CheckingReader.Valid, Message.CheckingReader.Repr, Ready;
    hide Expect, Top, Below;
    var skipped;
    skipped, left := SkipFields(reader, skip, g, stack);
    if skipped.Err? {
      return Err(skipped.error), left;
    }
    ghost var before, rest := reader.handles, left;
    SkippedField(stack, skip, rest);
    var size;
    size, left := NextOf(reader, List, g, left);
    if size.Err? {
      return Err(size.error), left;
    }
    GrownTwice(old(reader.handles), before, reader.handles, g.base, Some(Handle(List, size.value)));
    GrownBelow(old(reader.handles), reader.handles, g.base, Some(Handle(List, size.value)));
    if stack.Some? {
      ghost var trees := Top(rest.value).trees;
      ExpectShape(trees, List);
      Pushed(Below(rest.value) + [Items(trees[1..])], LayerOf(trees[0]));
      LayerOfHandle(reader, g, left.value);
    }
    r := Ok(());
  }
}
