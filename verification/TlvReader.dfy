/** The TLV reader over the digesting reader: it performs the cursor's operations on polled input. */
module TlvReader {
  import opened Bytes
  import opened Errors
  import opened Tlv
  import opened Spec = Cursors
  import opened Walker
  import Message

  /**
   The reader and the handles that borrow it, the one in use last. A handle can only be used
   or dropped while it is on top.
   */
  class Reader {
    const reader: Message.CheckingReader
    var remainingBytes: nat
    var remainingTlvs: nat
    var handles: seq<Handle>

    constructor (reader: Message.CheckingReader)
      requires reader.Valid() && reader.sound && reader.Settled()
      ensures fresh(this) && Live() && this.reader == reader
      ensures View() == Cursor(reader.at, 0, 0, [])
    {
      hide Message.CheckingReader.Valid;
      this.reader := reader;
      remainingBytes, remainingTlvs, handles := 0, 0, [];
    }

    ghost function Repr(): set<object> {
      {this} + reader.Repr()
    }

    ghost predicate Valid()
      reads Repr()
    {
      this !in reader.Repr() && reader.Valid()
    }

    /** Valid, no reading error has been met so far, and the stream is read no further than it must. */
    ghost predicate Live()
      reads Repr()
    {
      Valid() && reader.sound && reader.Settled()
    }

    /** The data is over, and the stream stands where the frame ends. */
    ghost predicate Spent()
      reads Repr()
    {
      Valid() && reader.raw == reader.next
    }

    ghost function View(): Cursor
      reads this, reader
    {
      Cursor(reader.at, remainingBytes, remainingTlvs, handles)
    }

    /** What an operation leaves alone or only uses up. */
    ghost predicate Steady(since: nat, pending: nat, faults: nat)
      reads Repr()
    {
      Valid() && reader.since == since && reader.pending <= pending && reader.faults >= faults
    }

    /**
     The operation did what the cursor's step `s` says, unless the source, which had failed
     `faults` times before, has failed on the way; then that is the error.
     */
    ghost predicate Agrees<T>(faults: nat, s: Step<T>, r: Result<T>)
      reads Repr()
    {
      if reader.faults > faults then reader.failure.Some? && r == Err(Io(reader.failure.value))
      else
        match s
        case Step(c, result) => Live() && View() == c && r == result
        case DataOver => Spent() && r == Err(Io(Message.PastEnd(reader.verdict)))
    }

    /** Reads the next `length` bytes, without regard to what is owed. */
    method ReadExactly(buf: array<byte>, length: nat) returns (r: Result<()>)
      requires Live() && length <= buf.Length && buf !in Repr()
      modifies reader.Repr(), buf
      ensures Steady(old(reader.since), old(reader.pending), old(reader.faults))
      ensures Agrees(old(reader.faults), Advance(reader.data, old(View()), length), r)
      ensures r.Ok? ==> old(reader.at) + length <= |reader.data|
                        && forall i :: 0 <= i < length ==> buf[i] == reader.data[old(reader.at) + i]
    {
      hide Message.CheckingReader.Valid, Message.CheckingReader.Repr;
      var error := reader.ReadExactly(buf, length);
      r := if error.None? then Ok(()) else Err(Io(error.value));
    }

    method ReadU8() returns (r: Result<byte>)
      requires Live()
      modifies reader.Repr()
      ensures Steady(old(reader.since), old(reader.pending), old(reader.faults))
      ensures Agrees(old(reader.faults), TakeByte(reader.data, old(View())), r)
    {
      hide Message.CheckingReader.Valid;
      var buf := new byte[1];
      var done := ReadExactly(buf, 1);
      r := if done.Ok? then Ok(buf[0]) else Err(done.error);
    }

    /** Reads a header of any length, without regard to what is owed. */
    method ReadHeader() returns (r: Result<(TlvType, nat)>)
      requires Live()
      modifies reader.Repr()
      ensures Steady(old(reader.since), old(reader.pending), old(reader.faults))
      ensures Agrees(old(reader.faults), Spec.ReadHeader(reader.data, old(View())), r)
    {
      hide Message.CheckingReader.Valid, Message.CheckingReader.Repr;
      var first := ReadU8();
      if first.Err? {
        return Err(first.error);
      }
      var header := first.value;
      var ty := TypeOf(header);
      var len: nat := Nibble(header);
      var headerLen: nat := 1;
      while HasMore(header)
        invariant Live() && Steady(old(reader.since), old(reader.pending), old(reader.faults))
        invariant reader.faults == old(reader.faults)
        invariant View() == old(View()).(at := reader.at)
        invariant HeaderAt(reader.data, old(reader.at)) == HeaderFrom(reader.data, reader.at, ty, len, headerLen, header)
        decreases |reader.data| - reader.at
      {
        var next := ReadU8();
        if next.Err? {
          return Err(next.error);
        }
        header := next.value;
        if RawType(header) != 0 {
          return Err(MultibyteTlvReservedType(RawType(header)));
        }
        len := len * 16 % WORD;
        if len + Nibble(header) >= WORD {
          return Err(TlvLengthTooBig);
        }
        len := len + Nibble(header);
        headerLen := headerLen + 1;
      }
      match TypeOf(header)
      case List => r := Ok((ty, len));
      case String =>
        if len == 0 {
          return Err(EndOfSmlMessage);
        }
        r := if len < headerLen then Err(ShortTlvLength(len)) else Ok((ty, len - headerLen));
      case _ =>
        r := if len == 0 || len < headerLen then Err(ShortTlvLength(len)) else Ok((ty, len - headerLen));
    }

    /** Reads and forgets `num` bytes, at most four at a time. */
    method SkipBytes(num: nat) returns (r: Result<()>)
      requires Live()
      modifies reader.Repr()
      ensures Steady(old(reader.since), old(reader.pending), old(reader.faults))
      ensures Agrees(old(reader.faults), Advance(reader.data, old(View()), num), r)
    {
      hide Message.CheckingReader.Valid;
      var buf := new byte[4];
      var left := num;
      while left > 0
        invariant Live() && Steady(old(reader.since), old(reader.pending), old(reader.faults))
        invariant reader.faults == old(reader.faults)
        invariant View() == old(View()).(at := reader.at)
        invariant 0 <= left <= num && reader.at == old(reader.at) + (num - left)
      {
        var readlen := if left < 4 then left else 4;
        var done := ReadExactly(buf, readlen);
        if done.Err? {
          return done;
        }
        left := left - readlen;
      }
      r := Ok(());
    }

    /** Skips `count` TLVs with everything in them, counting the elements of lists as further TLVs. */
    method SkipTlvs(count: nat) returns (r: Result<()>)
      requires Live()
      modifies reader.Repr()
      ensures Steady(old(reader.since), old(reader.pending), old(reader.faults))
      ensures old(reader.at) <= |reader.data|
      ensures Agrees(old(reader.faults), SkipStep(reader.data, old(View()), count), r)
    {
      hide Message.CheckingReader.Valid, Message.CheckingReader.Repr, HeaderAt;
      var num := count;
      while num > 0
        invariant Live() && Steady(old(reader.since), old(reader.pending), old(reader.faults))
        invariant reader.faults == old(reader.faults)
        invariant View() == old(View()).(at := reader.at)
        invariant old(reader.at) <= reader.at <= |reader.data|
        invariant SkipFlat(reader.data, old(reader.at), count) == SkipFlat(reader.data, reader.at, num)
        decreases |reader.data| - reader.at, num
      {
        num := num - 1;
        var header := ReadHeader();
        match header
        case Err(EndOfSmlMessage) =>
          return Err(if num == 0 then EndOfSmlMessage else MidMessageEndMarker(num));
        case Err(e) =>
          return Err(e);
        case Ok((ty, len)) =>
          if ty == List {
            num := num + len;
          } else {
            var done := SkipBytes(len);
            if done.Err? {
              return done;
            }
          }
      }
      r := Ok(());
    }

    /** Pays what dropped handles have left unread: first bytes, then TLVs. */
    method SkipNow() returns (r: Result<()>)
      requires Live()
      modifies Repr()
      ensures Steady(old(reader.since), old(reader.pending), old(reader.faults))
      ensures Agrees(old(reader.faults), Flush(reader.data, old(View())), r)
    {
      hide Message.CheckingReader.Valid, Message.CheckingReader.Repr, SkipFlat;
      if remainingBytes > 0 {
        var done := SkipBytes(remainingBytes);
        if done.Err? {
          return done;
        }
        remainingBytes := 0;
      }
      if remainingTlvs > 0 {
        var done := SkipTlvs(remainingTlvs);
        if done.Err? {
          return done;
        }
        remainingTlvs := 0;
      } else {
        SkipNone(reader.data, reader.at);
      }
      r := Ok(());
    }

    method ReadTlv() returns (r: Result<(TlvType, nat)>)
      requires Live()
      modifies Repr()
      ensures Steady(old(reader.since), old(reader.pending), old(reader.faults))
      ensures Agrees(old(reader.faults), Spec.ReadTlv(reader.data, old(View())), r)
    {
      hide Message.CheckingReader.Valid, Message.CheckingReader.Repr, Flush, Spec.ReadHeader;
      var done := SkipNow();
      if done.Err? {
        return Err(done.error);
      }
      r := ReadHeader();
    }

    method ReadList() returns (r: Result<nat>)
      requires Live()
      modifies Repr()
      ensures Steady(old(reader.since), old(reader.pending), old(reader.faults))
      ensures Agrees(old(reader.faults), Spec.ReadList(reader.data, old(View())), r)
    {
      hide Message.CheckingReader.Valid, Spec.ReadTlv;
      var header := ReadTlv();
      if header.Err? {
        return Err(header.error);
      }
      var (ty, len) := header.value;
      if ty != List {
        return Err(UnexpectedTlv(ty, len));
      }
      handles := handles + [Handle(List, len)];
      r := Ok(len);
    }

    // ------------------------------------------------ the handle in use

    /** Gives the handle in use another length. */
    method SetLen(len: nat)
      requires handles != []
      modifies `handles
      ensures View() == old(View()).WithLen(len)
    {
      handles := handles[..|handles| - 1] + [handles[|handles| - 1].(len := len)];
    }

    /** Drops the handle in use. */
    method DropTop()
      requires handles != []
      modifies this
      ensures View() == Spec.Drop(old(View()))
    {
      var top := handles[|handles| - 1];
      if top.ty == List {
        remainingTlvs := remainingTlvs + top.len;
      } else {
        remainingBytes := remainingBytes + top.len;
      }
      handles := handles[..|handles| - 1];
    }

    method Next() returns (r: Result<Option<Item>>)
      requires Live() && handles != []
      modifies Repr()
      ensures Steady(old(reader.since), old(reader.pending), old(reader.faults))
      ensures Agrees(old(reader.faults), Spec.Next(reader.data, old(View())), r)
    {
      hide Message.CheckingReader.Valid, Spec.ReadTlv;
      var len := handles[|handles| - 1].len;
      if len == 0 {
        return Ok(None);
      }
      var header := ReadTlv();
      if header.Err? {
        return Err(header.error);
      }
      var (ty, itemLen) := header.value;
      SetLen(len - 1);
      if ty == String && itemLen == 0 {
        return Ok(Some(NoneItem));
      }
      if ty.Other? {
        return Err(UnsupportedTlvType(ty.raw));
      }
      handles := handles + [Handle(ty, itemLen)];
      r := Ok(Some(Item(ty, itemLen)));
    }

    /** The end marker; it counts as an element of the list in use. */
    method NextEnd() returns (r: Result<()>)
      requires Live() && handles != []
      modifies Repr()
      ensures Steady(old(reader.since), old(reader.pending), old(reader.faults))
      ensures Agrees(old(reader.faults), EndMarker(reader.data, old(View())), r)
    {
      hide Message.CheckingReader.Valid, Spec.Next;
      var item := Next();
      match item
      case Err(EndOfSmlMessage) =>
        SetLen(handles[|handles| - 1].len - 1);
        r := Ok(());
      case Err(e) => r := Err(e);
      case Ok(found) =>
        if found.Some? && found.value.Item? {
          DropTop();
        }
        r := Err(UnexpectedValue);
    }

    method Skip(num: nat) returns (r: Result<()>)
      requires Live() && handles != []
      modifies this
      ensures Live()
      ensures Step(View(), r) == Spec.Skip(old(View()), num)
    {
      hide Message.CheckingReader.Valid;
      var len := handles[|handles| - 1].len;
      if num > len {
        return Err(EndOfList);
      }
      remainingTlvs := remainingTlvs + num;
      SetLen(len - num);
      r := Ok(());
    }

    /** Reads all bytes of the value in use. */
    method Take() returns (r: Result<seq<byte>>)
      requires Live() && handles != []
      modifies Repr()
      ensures Steady(old(reader.since), old(reader.pending), old(reader.faults))
      ensures Agrees(old(reader.faults), Spec.Take(reader.data, old(View())), r)
    {
      hide Message.CheckingReader.Valid;
      var len := handles[|handles| - 1].len;
      var buf := new byte[len];
      ghost var at := reader.at;
      var done := ReadExactly(buf, len);
      if done.Err? {
        return Err(done.error);
      }
      SetLen(0);
      assert buf[..] == reader.data[at..at + len];
      r := Ok(buf[..]);
    }

    method ReadString(size: nat) returns (r: Result<seq<byte>>)
      requires Live() && handles != []
      modifies Repr()
      ensures Steady(old(reader.since), old(reader.pending), old(reader.faults))
      ensures Agrees(old(reader.faults), Spec.ReadString(reader.data, old(View()), size), r)
    {
      hide Message.CheckingReader.Valid, Spec.Take;
      if size != handles[|handles| - 1].len {
        return Err(WrongBufferSize);
      }
      r := Take();
    }

    /** The bytes of a number or flag, which is used up. */
    method Into(min: nat, max: nat) returns (r: Result<seq<byte>>)
      requires Live() && handles != []
      modifies Repr()
      ensures Steady(old(reader.since), old(reader.pending), old(reader.faults))
      ensures Agrees(old(reader.faults), Spec.Into(reader.data, old(View()), min, max), r)
    {
      hide Message.CheckingReader.Valid;
      var len := handles[|handles| - 1].len;
      if min <= len <= max {
        r := Take();
        if r.Ok? {
          DropTop();
        }
      } else {
        DropTop();
        r := Err(UnsupportedLen(len));
      }
    }

    // ---------------------------------------------------------- consumers

    /** What a consumer of the handles from `base` on relies on: the place where their data ends. */
    ghost predicate Stands(base: nat, land: Skipped)
      reads Repr()
    {
      Live() && Tidy(View(), base) && Land(reader.data, View(), base) == land
    }

    /** If the data is well-formed, the cursor stands for a walker over its trees. */
    ghost predicate Walks(base: nat, stack: Option<seq<Layer>>, tail: nat)
      reads Repr()
    {
      stack.Some? ==> Rel(reader.data, View(), base, stack.value, tail)
    }

    /** The handles below `base` are still the ones of `before`. */
    ghost predicate SameBelow(base: nat, before: seq<Handle>)
      reads this
    {
      base <= |before| && base <= |handles| && handles[..base] == before[..base]
    }

    /** Performs any operation that the handle in use offers. */
    method Perform(op: Op) returns (r: Result<Obs>)
      requires Live() && handles != []
      modifies Repr()
      ensures Steady(old(reader.since), old(reader.pending), old(reader.faults))
      ensures Agrees(old(reader.faults), Apply(reader.data, old(View()), op), r)
    {
      hide Message.CheckingReader.Valid, Spec.Next, Spec.Skip, Spec.ReadString, Spec.Into;
      match op
      case DoNext =>
        var item := Next();
        r := if item.Ok? then Ok(Saw(item.value)) else Err(item.error);
      case DoSkip(num) =>
        var done := Skip(num);
        r := if done.Ok? then Ok(Moved) else Err(done.error);
      case DoReadString(size) =>
        var bytes := ReadString(size);
        r := if bytes.Ok? then Ok(Took(bytes.value)) else Err(bytes.error);
      case DoInto(min, max) =>
        var bytes := Into(min, max);
        r := if bytes.Ok? then Ok(Took(bytes.value)) else Err(bytes.error);
      case DoDrop =>
        DropTop();
        r := Ok(Moved);
    }

    /**
     One operation of a consumer. It observes what a walker over the trees observes, and the
     place where the data ends stays the same, unless the error is one to be passed on.
     */
    method Use(op: Op, ghost base: nat, ghost stack: Option<seq<Layer>>, ghost tail: nat, ghost land: Skipped)
      returns (r: Result<Obs>, ghost left: Option<seq<Layer>>)
      requires Stands(base, land) && Walks(base, stack, tail) && Enabled(handles, base, op)
      modifies Repr()
      ensures Steady(old(reader.since), old(reader.pending), old(reader.faults))
      ensures Agrees(old(reader.faults), Apply(reader.data, old(View()), op), r)
      ensures reader.faults == old(reader.faults) && (r.Ok? || Soft(r.error)) ==>
                Stands(base, land) && Walks(base, left, tail) && SameBelow(base, old(handles))
      ensures stack.Some? <==> left.Some?
      ensures stack.Some? && reader.faults == old(reader.faults) ==> Treads(stack.value, op, left.value, r)
    {
      hide Message.CheckingReader.Valid, Message.CheckingReader.Repr, Apply, Rel, Tidy, Land, Walk, Fits;
      ghost var c := View();
      left := stack;
      if stack.Some? {
        StepRefines(reader.data, c, base, stack.value, tail, op);
        left := Some(Walk(stack.value, op).stack);
      }
      r := Perform(op);
      if reader.faults == old(reader.faults) && (r.Ok? || Soft(r.error)) {
        LandAfterStep(reader.data, c, base, op);
      }
    }
  }

  /** The operation takes the walker from `stack` to `left`, with result `r`. */
  ghost predicate Treads(stack: seq<Layer>, op: Op, left: seq<Layer>, r: Result<Obs>) {
    stack != [] && Fits(Top(stack), op) && Walk(stack, op) == Walked(left, r)
  }
}
