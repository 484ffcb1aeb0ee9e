/** The steps that readers of lists are made of, on any cursor. */
module Steps {
  import opened Bytes
  import opened Errors
  import opened Cursors

  function Element(data: seq<byte>, c: Cursor, ty: TlvType): Step<nat> {
    if c.handles == [] then DataOver else ElementOf(data, c, ty)
  }

  function OptElement(data: seq<byte>, c: Cursor, ty: TlvType): Step<Option<nat>> {
    if c.handles == [] then DataOver else OptElementOf(data, c, ty)
  }

  function Any(data: seq<byte>, c: Cursor): Step<Item> {
    if c.handles == [] then DataOver else AnyElement(data, c)
  }

  /** Passing over some fields. */
  function Pass(c: Cursor, num: nat): Step<()> {
    if c.handles == [] then DataOver
    else if num > 0 then Skip(c, num)
    else Step(c, Ok(()))
  }

  function Number(data: seq<byte>, c: Cursor, min: nat, max: nat): Step<seq<byte>> {
    if c.handles == [] then DataOver else Into(data, c, min, max)
  }

  function Dropped(c: Cursor): Cursor {
    if c.handles == [] then c else Drop(c)
  }

  /** The string in use, whatever its size; its handle is gone afterwards. */
  function Text(data: seq<byte>, c: Cursor): Step<seq<byte>> {
    if c.handles == [] then DataOver
    else
      var bytes :- Take(data, c);
      Step(Dropped(bytes.0), Ok(bytes.1))
  }

  function LenLeft(c: Cursor): nat {
    if c.handles == [] then 0 else c.Top().len
  }

  /** Opening a field; a choice must be a list of two. */
  function FieldStep(data: seq<byte>, c: Cursor, ty: TlvType, choice: bool): Step<nat> {
    var size :- Element(data, c, ty);
    if choice && size.1 != 2 then Step(Dropped(size.0), Err(UnsupportedLen(size.1))) else Step(size.0, Ok(size.1))
  }

  /** Opening a field and dropping it. */
  function PassStep(data: seq<byte>, c: Cursor, ty: TlvType, choice: bool): Step<()> {
    var size :- FieldStep(data, c, ty, choice);
    Step(Dropped(size.0), Ok(()))
  }

  /** A number among the elements of the list in use. */
  function NumberStep(data: seq<byte>, c: Cursor, min: nat, max: nat): Step<seq<byte>> {
    var len :- Element(data, c, Unsigned);
    Number(data, len.0, min, max)
  }

  function EndStep(data: seq<byte>, c: Cursor): Step<()> {
    if c.handles == [] then DataOver else EndMarker(data, c)
  }
}
