/** Fields of a sequence that are not plain numbers: parsed at most once, and finished in any case. */
module Fields {
  import opened Errors
  import opened Tlv
  import opened Spec = Cursors
  import opened Walker
  import opened Readings
  import opened Steps
  import opened Consumer
  import opened TlvReader
  import Message

  /** What parsing a field makes of the elements left: a choice must be a list of two. */
  function Opened(fields: seq<Tlv>, ty: TlvType, choice: bool): Result<Layer> {
    var f :- ExpectNext(fields, ty);
    if choice && HandleOf(f).len != 2 then Err(UnsupportedLen(HandleOf(f).len)) else Ok(f)
  }

  /** A field of type `ty`, or a choice, which comes next in the list in use. */
  class Field {
    const reader: Reader
    const ty: TlvType
    const choice: bool
    var parsed: bool
    /** what the list had left when the field was reached */
    ghost const fields: seq<Tlv>

    constructor (reader: Reader, ty: TlvType, choice: bool, ghost fields: seq<Tlv>)
      ensures this.reader == reader && this.ty == ty && this.choice == choice && this.fields == fields && !parsed
    {
      this.reader, this.ty, this.choice, this.fields, parsed := reader, ty, choice, fields, false;
    }

    /** The list in use has left what comes after the field, once it is parsed. */
    ghost predicate InPlace(stack: Option<seq<Layer>>)
      reads this
    {
      stack.Some? ==>
        && stack.value != []
        && Top(stack.value) == Items(if parsed then Passed() else fields)
    }

    ghost function Passed(): seq<Tlv> {
      if fields == [] then [] else fields[1..]
    }

    /** Opens the field, if it has not been opened before; its handle then is the one in use. */
    method Parse(ghost g: Ground, ghost stack: Option<seq<Layer>>)
      returns (r: Result<nat>, ghost left: Option<seq<Layer>>)
      requires this !in reader.Repr() && Ready(reader, g, stack) && ListInUse(reader, g) && InPlace(stack)
      modifies reader.Repr(), `parsed
      ensures reader.Steady(old(reader.reader.since), old(reader.reader.pending), old(reader.reader.faults))
      ensures parsed
      ensures old(parsed) ==> r == Err(CantParseTwice) && left == stack && Ready(reader, g, left) && reader.View() == old(reader.View())
      ensures r.Ok? ==>
                && reader.reader.faults == old(reader.reader.faults)
                && Ready(reader, g, left)
                && Grown(old(reader.handles), reader.handles, g.base, Some(Handle(ty, r.value)))
      ensures !old(parsed) ==> reader.Agrees(old(reader.reader.faults), FieldStep(reader.reader.data, old(reader.View()), ty, choice), r)
      ensures left.Some? <==> stack.Some?
      ensures stack.Some? && !old(parsed) && reader.reader.faults == old(reader.reader.faults) ==>
                match Opened(fields, ty, choice)
                case Err(e) => r == Err(e)
                case Ok(f) => r == Ok(HandleOf(f).len) && left.value == Below(stack.value) + [Items(Passed())] + [f]
    {
      hide Reader.Agrees, Message.CheckingReader.Valid, Rel, Tidy, Land, Expect;
      if parsed {
        return Err(CantParseTwice), stack;
      }
      parsed := true;
      r, left := ParseField(g, stack);
    }

    /** Opens the element that comes next. */
    method ParseField(ghost g: Ground, ghost stack: Option<seq<Layer>>)
      returns (r: Result<nat>, ghost left: Option<seq<Layer>>)
      requires this !in reader.Repr() && Ready(reader, g, stack) && ListInUse(reader, g)
      requires stack.Some? ==> stack.value != [] && Top(stack.value) == Items(fields)
      modifies reader.Repr()
      ensures reader.Steady(old(reader.reader.since), old(reader.reader.pending), old(reader.reader.faults))
      ensures r.Ok? ==>
                && reader.reader.faults == old(reader.reader.faults)
                && Ready(reader, g, left)
                && Grown(old(reader.handles), reader.handles, g.base, Some(Handle(ty, r.value)))
      ensures reader.Agrees(old(reader.reader.faults), FieldStep(reader.reader.data, old(reader.View()), ty, choice), r)
      ensures left.Some? <==> stack.Some?
      ensures stack.Some? && reader.reader.faults == old(reader.reader.faults) ==>
                match Opened(fields, ty, choice)
                case Err(e) => r == Err(e)
                case Ok(f) => r == Ok(HandleOf(f).len) && left.value == Below(stack.value) + [Items(Passed())] + [f]
    {
      hide Message.CheckingReader.Valid, Rel, Tidy, Land, Expect, ElementOf;
      r, left := NextOf(reader, ty, g, stack);
      if r.Ok? && choice && r.value != 2 {
        reader.DropTop();
        r := Err(UnsupportedLen(r.value));
      }
    }

    /** Leaves the field behind; if nobody has opened it, it is opened and dropped. */
    method Finish(ghost g: Ground, ghost stack: Option<seq<Layer>>)
      returns (r: Result<()>, ghost left: Option<seq<Layer>>)
      requires this !in reader.Repr() && Ready(reader, g, stack) && ListInUse(reader, g) && InPlace(stack)
      modifies reader.Repr()
      ensures reader.Steady(old(reader.reader.since), old(reader.reader.pending), old(reader.reader.faults))
      ensures r.Ok? ==>
                && reader.reader.faults == old(reader.reader.faults)
                && Ready(reader, g, left)
                && Grown(old(reader.handles), reader.handles, g.base, None)
      ensures parsed ==> r == Ok(()) && left == stack && reader.View() == old(reader.View())
      ensures !parsed ==> reader.Agrees(old(reader.reader.faults), PassStep(reader.reader.data, old(reader.View()), ty, choice), r)
      ensures left.Some? <==> stack.Some?
      ensures stack.Some? && reader.reader.faults == old(reader.reader.faults) ==>
                && (r.Ok? ==> left.value == Below(stack.value) + [Items(Passed())])
                && (r.Err? ==> !parsed && Opened(fields, ty, choice).Err? && r.error == Opened(fields, ty, choice).error)
                && (!parsed && Opened(fields, ty, choice).Err? ==> r.Err?)
    {
      hide Message.CheckingReader.Valid, Rel, Tidy, Land, Expect, FieldStep;
      left := stack;
      r := Ok(());
      if stack.Some? {
        assert Below(stack.value) + [Top(stack.value)] == stack.value;
      }
      if !parsed {
        ghost var before := reader.handles;
        var size;
        size, left := ParseField(g, stack);
        if size.Err? {
          return Err(size.error), left;
        }
        GrownDropped(before, reader.handles, g.base, Handle(ty, size.value));
        if stack.Some? {
          Pushed(Below(stack.value) + [Items(Passed())], Opened(fields, ty, choice).value);
        }
        left := DropValue(reader, g, left);
      }
    }
  }
}
