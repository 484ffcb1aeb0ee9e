/** The meter's callback as steps of the cursor: what it reads, and where it stops, on any data. */
module MeterSteps {
  import opened Bytes
  import opened Errors
  import opened Cursors
  import opened Readings
  import opened Steps
  import Values

  function NameStep(data: seq<byte>, c: Cursor): Step<Option<seq<byte>>> {
    var size :- FieldStep(data, c, String, false);
    SomeNameStep(data, size.0, size.1)
  }

  /** A name of a certain size is in use. */
  function SomeNameStep(data: seq<byte>, c: Cursor, size: nat): Step<Option<seq<byte>>> {
    if size > NAME_BUFFER then Step(Dropped(c), Ok(None)) else ShortNameStep(data, c)
  }

  function ShortNameStep(data: seq<byte>, c: Cursor): Step<Option<seq<byte>>> {
    var bytes :- Text(data, c);
    Step(bytes.0, Ok(Some(bytes.1)))
  }

  function ScalerStep(data: seq<byte>, c: Cursor, skip: nat): Step<int> {
    var passed :- Pass(c, skip);
    var size :- OptElement(data, passed.0, Integer);
    if size.1.None? then Step(size.0, Ok(0))
    else
      var bytes :- Number(data, size.0, 1, 1);
      Step(bytes.0, Ok(Values.Value(bytes.1, true)))
  }

  function TakeStep(schema: Schema, data: seq<byte>, c: Cursor, item: Item): Step<Option<int>> {
    if item.NoneItem? then Step(c, Err(UnexpectedValue))
    else if item.ty == Boolean then
      var bytes :- Number(data, c, 1, 1);
      Step(bytes.0, Ok(None))
    else if item.ty == String || (item.ty == List && schema.subLists) then Step(Dropped(c), Ok(None))
    else if item.ty == List || item.len < 1 || item.len > 8 then Step(c, Err(UnexpectedValue))
    else
      var signed := item.ty == Integer;
      var range := Values.LenRange(Values.Choose(item.len, signed).width);
      var bytes :- Number(data, c, range.0, range.1 - 1);
      Step(bytes.0, Ok(Some(Values.Value(bytes.1, signed))))
  }

  function ValueStep(schema: Schema, data: seq<byte>, c: Cursor, skip: nat): Step<Option<int>> {
    var passed :- Pass(c, skip);
    var item :- Any(data, passed.0);
    TakeStep(schema, data, item.0, item.1)
  }

  /** The scaler and the value of an entry, behind its name; the entry's handle is gone afterwards. */
  function NumbersStep(schema: Schema, data: seq<byte>, c: Cursor): Step<(int, Option<int>)>
    requires Consistent(schema)
  {
    var scaler :- ScalerStep(data, c, schema.scaler - 1);
    var value :- ValueStep(schema, data, scaler.0, schema.value - schema.scaler - 1);
    Step(Dropped(value.0), Ok((scaler.1, value.1)))
  }

  /** One entry, whose fields are in use; its handle is gone afterwards. */
  function EntryStep(schema: Schema, data: seq<byte>, c: Cursor): Step<Entry>
    requires Consistent(schema)
  {
    var name :- NameStep(data, c);
    if name.1.None? then Step(Dropped(name.0), Ok(TooLong))
    else
      var numbers :- NumbersStep(schema, data, name.0);
      Step(numbers.0, Ok(Entry(name.1.value, numbers.1.0, numbers.1.1)))
  }

  /** The next entry of the list in use. */
  function NextEntryStep(schema: Schema, data: seq<byte>, c: Cursor): Step<Entry>
    requires Consistent(schema)
  {
    var fields :- Element(data, c, List);
    EntryStep(schema, data, fields.0)
  }

  /** The entries of the list in use, `n` at most. */
  function EntriesStep(schema: Schema, data: seq<byte>, c: Cursor, n: nat, store: Store): Step<Store>
    requires Consistent(schema)
    decreases n
  {
    if n == 0 || LenLeft(c) == 0 then Step(c, Ok(store))
    else
      var entry :- NextEntryStep(schema, data, c);
      match Collect(entry.1, store)
      case Err(e) => Step(entry.0, Err(e))
      case Ok(next) => EntriesStep(schema, data, entry.0, n - 1, next)
  }

  function TagStep(data: seq<byte>, c: Cursor): Step<nat> {
    var size :- Element(data, c, Unsigned);
    var bytes :- Number(data, size.0, 1, 4);
    Step(bytes.0, Ok(Be(bytes.1)))
  }

  /** Opening a list behind some fields. */
  function ListStep(data: seq<byte>, c: Cursor, skip: nat): Step<()> {
    var passed :- Pass(c, skip);
    var size :- Element(data, passed.0, List);
    Step(size.0, Ok(()))
  }

  /** The list response in use: its value list is looked through. */
  function ResponseStep(schema: Schema, data: seq<byte>, c: Cursor, store: Store): Step<Store>
    requires Consistent(schema)
  {
    var list :- ListStep(data, c, schema.valList);
    EntriesStep(schema, data, list.0, LenLeft(list.0), store)
  }

  /** What follows the tag: the list response is looked through, other known bodies are only opened. */
  function BodyStep(schema: Schema, data: seq<byte>, c: Cursor, tag: nat, store: Store): Step<Store>
    requires Consistent(schema)
  {
    if tag != schema.listResponse && tag !in schema.otherTags then Step(c, Err(UnsupportedTag(tag)))
    else
      var body :- ListStep(data, c, 0);
      if tag == schema.listResponse then ResponseStep(schema, data, body.0, store) else Step(body.0, Ok(store))
  }

  /** One message, whose body is in use; its handles from `base` on are gone afterwards. */
  function MeterStep(schema: Schema, data: seq<byte>, c: Cursor, base: nat, store: Store): Step<Store>
    requires Consistent(schema)
  {
    var tag :- TagStep(data, c);
    var all :- BodyStep(schema, data, tag.0, tag.1, store);
    Step(DropTo(all.0, base), Ok(all.1))
  }
}
