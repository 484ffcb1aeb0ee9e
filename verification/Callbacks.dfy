/** The callbacks of a run: the meter's, and any other one, given by what it does with each message. */
module Callbacks {
  import opened Bytes
  import opened Errors
  import opened Tlv
  import opened Spec = Cursors
  import opened Walker
  import opened Readings
  import opened MeterSteps
  import opened Steps
  import opened Consumer
  import opened TlvReader
  import Message
  import Meter

  /**
   The meter's callback, or any other one, which goes on for `steps` operations at most in a
   message. An arbitrary callback goes on after every error that leaves the cursor intact,
   and passes on the others.
   */
  datatype Behaviour = Meter(schema: Schema) | Strategic(strategy: Strategy, steps: nat)

  predicate Sensible(b: Behaviour) {
    b.Meter? ==> Consistent(b.schema)
  }

  datatype Call =
    | FrameStart
    | MessageReceived
    | FrameFinished(valid: bool, reported: Option<(Reading, Reading)>)

  /** What a callback remembers: the readings of the frame, or what it has observed in each message. */
  datatype State = State(store: Store, heard: Past)

  /** The reply of a callback that is done. */
  function ReplyOf(strategy: Strategy, heard: Past, log: seq<Result<Obs>>): Result<()> {
    match strategy(heard, log)
    case Reply(reply) => reply
    case Do(_) => Ok(())
  }

  /** What a callback makes of a message body, given as trees: an error, or its next state. */
  function OnMessage(b: Behaviour, body: seq<Tlv>, st: State): Result<State> {
    match b
    case Meter(schema) =>
      var store :- Receive(schema, body, st.store);
      Ok(st.(store := store))
    case Strategic(strategy, steps) =>
      match WalkRun([Items(body)], strategy, st.heard, [], steps)
      case TourAborted(e) => Err(e)
      case Tour(_, log) =>
        var _ :- ReplyOf(strategy, st.heard, log);
        Ok(st.(heard := st.heard + [log]))
  }

  /**
   What a callback makes of a message whose body is in use, on any data, well-formed or not:
   where its reading stands then, and its next state or an error.
   */
  function CallbackStep(b: Behaviour, data: seq<byte>, c: Spec.Cursor, base: nat, st: State): Step<State>
    requires Sensible(b)
  {
    match b
    case Meter(schema) =>
      var store :- MeterStep(schema, data, c, base, st.store);
      Step(store.0, Ok(st.(store := store.1)))
    case Strategic(strategy, steps) =>
      match Run(data, c, base, strategy, st.heard, [], steps)
      case RanDry => DataOver
      case Aborted(d, e) => Step(d, Err(e))
      case Ran(d, log) =>
        match ReplyOf(strategy, st.heard, log)
        case Err(e) => Step(DropTo(d, base), Err(e))
        case Ok(_) => Step(DropTo(d, base), Ok(st.(heard := st.heard + [log])))
  }

  /** What it has observed when it is done with the message, one way or the other. */
  function HeardThen(b: Behaviour, data: seq<byte>, c: Spec.Cursor, base: nat, heard: Past): Past {
    if b.Meter? then heard
    else
      match Run(data, c, base, b.strategy, heard, [], b.steps)
      case Ran(_, log) => heard + [log]
      case _ => heard
  }

  /** It does not forget anything in between. */
  lemma {:induction false} HeardMore(b: Behaviour, data: seq<byte>, c: Spec.Cursor, base: nat, heard: Past)
    ensures heard <= HeardThen(b, data, c, base, heard)
  {
  }

  class Callback {
    const behaviour: Behaviour
    var activePower: Option<Reading>
    var activeEnergy: Option<Reading>
    var heard: Past
    var events: seq<Call>

    constructor (behaviour: Behaviour)
      ensures this.behaviour == behaviour && Memory() == State(EMPTY, []) && events == []
    {
      this.behaviour := behaviour;
      activePower, activeEnergy, heard, events := None, None, [], [];
    }

    function Found(): Store
      reads this
    {
      Store(activePower, activeEnergy)
    }

    function Memory(): State
      reads this
    {
      State(Found(), heard)
    }

    /** Like `Reader.Agrees`, for steps that change the readings. */
    ghost predicate Collected(reader: Reader, faults: nat, s: Step<Store>, r: Result<()>)
      reads this, reader.Repr()
    {
      if reader.reader.faults > faults then reader.reader.failure.Some? && r == Err(Io(reader.reader.failure.value))
      else
        match s
        case DataOver => reader.Spent() && r == Err(Io(Message.PastEnd(reader.reader.verdict)))
        case Step(c, Err(e)) => reader.Live() && reader.View() == c && r == Err(e)
        case Step(c, Ok(store)) => reader.Live() && reader.View() == c && r.Ok? && Found() == store
    }

    /** The same for steps that change the whole memory. */
    ghost predicate Follows(reader: Reader, faults: nat, s: Step<State>, r: Result<()>)
      reads this, reader.Repr()
    {
      if reader.reader.faults > faults then reader.reader.failure.Some? && r == Err(Io(reader.reader.failure.value))
      else
        match s
        case DataOver => reader.Spent() && r == Err(Io(Message.PastEnd(reader.reader.verdict)))
        case Step(c, Err(e)) => reader.Live() && reader.View() == c && r == Err(e)
        case Step(c, Ok(st)) => reader.Live() && reader.View() == c && r.Ok? && Memory() == st
    }

    method OnFrameStart()
      modifies this
      ensures Memory() == old(Memory()).(store := EMPTY)
      ensures events == old(events) + [FrameStart]
    {
      activePower := None;
      activeEnergy := None;
      events := events + [FrameStart];
    }

    /** Reports the two readings to the C function if the frame was valid and both have come. */
    method OnFrameFinished(valid: bool)
      modifies this
      ensures events == old(events) + [FrameFinished(valid, if valid then Both(old(Found())) else None)]
      ensures Memory() == if valid then old(Memory()).(store := EMPTY) else old(Memory())
    {
      if !valid {
        events := events + [FrameFinished(false, None)];
        return;
      }
      var power, energy := activePower, activeEnergy;
      activePower, activeEnergy := None, None;
      if power.Some? && energy.Some? {
        events := events + [FrameFinished(true, Some((power.value, energy.value)))];
      } else {
        events := events + [FrameFinished(true, None)];
      }
    }

    /** Takes one entry into account. */
    method TakeEntry(entry: Entry) returns (r: Result<()>)
      modifies `activePower, `activeEnergy
      ensures match Collect(entry, old(Found()))
              case Ok(store) => r == Ok(()) && Found() == store
              case Err(e) => r == Err(e)
    {
      if entry.TooLong? {
        return Ok(());
      }
      if entry.name == OBIS_ACTIVE_POWER {
        var value := Unsigned64(entry.value);
        if value.Err? {
          return Err(value.error);
        }
        if activePower.Some? {
          return Err(UnexpectedValue);
        }
        activePower := Some(Reading(entry.scaler, value.value));
      } else if entry.name == OBIS_ACTIVE_ENERGY {
        var value := Unsigned64(entry.value);
        if value.Err? {
          return Err(value.error);
        }
        if activeEnergy.Some? {
          return Err(UnexpectedValue);
        }
        activeEnergy := Some(Reading(entry.scaler, value.value));
      }
      r := Ok(());
    }

    /** The next entry of the list in use. */
    method NextEntry(reader: Reader, schema: Schema, ghost g: Ground, ghost stack: Option<seq<Layer>>)
      returns (r: Result<Entry>, ghost left: Option<seq<Layer>>)
      requires Consistent(schema)
      requires Ready(reader, g, stack) && ListInUse(reader, g)
      modifies reader.Repr()
      ensures reader.Steady(old(reader.reader.since), old(reader.reader.pending), old(reader.reader.faults))
      ensures r.Ok? ==>
                && reader.reader.faults == old(reader.reader.faults)
                && Ready(reader, g, left)
                && Grown(old(reader.handles), reader.handles, g.base, None)
                && Consumed(old(reader.handles), reader.handles)
      ensures reader.Agrees(old(reader.reader.faults), NextEntryStep(schema, reader.reader.data, old(reader.View())), r)
      ensures left.Some? <==> stack.Some?
      ensures stack.Some? && reader.reader.faults == old(reader.reader.faults) ==>
                EntryTreads(schema, stack.value, left.value, r)
    {
      hide ElementOf, Message.CheckingReader.Valid, Message.CheckingReader.Repr, Ready, Expect, ReadEntry;
      ghost var before := reader.handles;
      var fields;
      fields, left := NextOf(reader, List, g, stack);
      if fields.Err? {
        return Err(fields.error), left;
      }
      if stack.Some? {
        NextFields(stack.value, left.value, fields);
      }
      GrownDropped(before, reader.handles, g.base, Handle(List, fields.value));
      r, left := Meter.ReadEntry(reader, schema, g, left);
    }

    /** Goes through the entries of the list in use. */
    method LookThrough(reader: Reader, schema: Schema, ghost g: Ground, ghost stack: Option<seq<Layer>>)
      returns (r: Result<()>, ghost left: Option<seq<Layer>>)
      requires Consistent(schema) && this !in reader.Repr()
      requires Ready(reader, g, stack) && ListInUse(reader, g)
      modifies reader.Repr(), `activePower, `activeEnergy
      ensures reader.Steady(old(reader.reader.since), old(reader.reader.pending), old(reader.reader.faults))
      ensures r.Ok? ==>
                && reader.reader.faults == old(reader.reader.faults)
                && Ready(reader, g, left)
                && Grown(old(reader.handles), reader.handles, g.base, None)
      ensures Collected(reader, old(reader.reader.faults),
                EntriesStep(schema, reader.reader.data, old(reader.View()), LenLeft(old(reader.View())), old(Found())), r)
      ensures left.Some? <==> stack.Some?
      ensures stack.Some? && reader.reader.faults == old(reader.reader.faults) ==>
                && stack.value != [] && Top(stack.value).Items?
                && match CollectAll(schema, Top(stack.value).trees, old(Found()))
                   case Ok(store) => r.Ok? && Found() == store && left.value != [] && Below(left.value) == Below(stack.value)
                   case Err(e) => r == Err(e)
    {
      hide ElementOf, Message.CheckingReader.Valid, Rel, Tidy, Land, CollectAll, EntriesStep, Passed;
      left := stack;
      ghost var before, n, data := reader.handles, LenLeft(reader.View()), reader.reader.data;
      PassedNothing(reader, schema, g, left, Found());
      while reader.handles[|reader.handles| - 1].len > 0
        invariant reader.Steady(old(reader.reader.since), old(reader.reader.pending), old(reader.reader.faults))
        invariant reader.reader.faults == old(reader.reader.faults)
        invariant Ready(reader, g, left) && Grown(before, reader.handles, g.base, None)
        invariant LenLeft(reader.View()) <= n
        invariant EntriesStep(schema, data, old(reader.View()), LenLeft(old(reader.View())), old(Found()))
                  == EntriesStep(schema, data, reader.View(), n, Found())
        invariant left.Some? <==> stack.Some?
        invariant stack.Some? ==> Passed(schema, stack.value, left.value, old(Found()), Found())
        decreases reader.handles[|reader.handles| - 1].len
      {
        ghost var here, handles, store := left, reader.handles, Found();
        r, left := OneEntry(reader, schema, g, left, n);
        if stack.Some? && reader.reader.faults == old(reader.reader.faults) {
          PassedOn(schema, stack.value, here.value, left.value, old(Found()), store, r, Found());
        }
        if r.Err? {
          return;
        }
        GrownTwice(before, handles, reader.handles, g.base, None);
        n := n - 1;
      }
      if stack.Some? {
        Remaining(reader, g, left);
        PassedAll(schema, stack.value, left.value, old(Found()), Found());
      }
      EntriesOver(schema, data, reader.View(), n, Found());
      r := Ok(());
    }

    /** Takes the next entry of the list in use into account. */
    method OneEntry(reader: Reader, schema: Schema, ghost g: Ground, ghost stack: Option<seq<Layer>>, ghost n: nat)
      returns (r: Result<()>, ghost left: Option<seq<Layer>>)
      requires Consistent(schema) && this !in reader.Repr()
      requires Ready(reader, g, stack) && ListInUse(reader, g) && 0 < LenLeft(reader.View()) <= n
      modifies reader.Repr(), `activePower, `activeEnergy
      ensures reader.Steady(old(reader.reader.since), old(reader.reader.pending), old(reader.reader.faults))
      ensures r.Ok? ==>
                && reader.reader.faults == old(reader.reader.faults)
                && Ready(reader, g, left)
                && Grown(old(reader.handles), reader.handles, g.base, None)
                && Consumed(old(reader.handles), reader.handles)
                && EntriesStep(schema, reader.reader.data, old(reader.View()), n, old(Found()))
                   == EntriesStep(schema, reader.reader.data, reader.View(), n - 1, Found())
      ensures r.Err? ==>
                Collected(reader, old(reader.reader.faults),
                  EntriesStep(schema, reader.reader.data, old(reader.View()), n, old(Found())), r)
      ensures left.Some? <==> stack.Some?
      ensures stack.Some? && reader.reader.faults == old(reader.reader.faults) ==>
                PassedOne(schema, stack.value, left.value, old(Found()), r, Found())
    {
      hide ElementOf, Message.CheckingReader.Valid, Rel, Tidy, Land, Collect, EntryTreads, CollectAll, EntriesStep;
      hide NextEntryStep;
      ghost var store := Found();
      EntriesFirst(schema, reader.reader.data, reader.View(), n, store);
      Remaining(reader, g, stack);
      var entry;
      entry, left := NextEntry(reader, schema, g, stack);
      if stack.Some? && reader.reader.faults == old(reader.reader.faults) {
        CollectOne(schema, stack.value, left.value, entry, store);
      }
      if entry.Err? {
        return Err(entry.error), left;
      }
      r := TakeEntry(entry.value);
    }

    /** On the trees: taking the first entry into account led from `store` to `now`, or to the error. */
    ghost predicate PassedOne(schema: Schema, stack: seq<Layer>, left: seq<Layer>, store: Store, r: Result<()>, now: Store) {
      && stack != [] && Top(stack).Items?
      && var all := CollectAll(schema, Top(stack).trees, store);
      match r
      case Err(e) => all == Err(e)
      case Ok(_) =>
        && left != [] && Top(left).Items? && Below(left) == Below(stack)
        && all == CollectAll(schema, Top(left).trees, now)
    }

    /** On the trees: what is left to be collected is what there was to be collected at first. */
    ghost predicate Passed(schema: Schema, stack: seq<Layer>, left: seq<Layer>, store: Store, now: Store) {
      PassedOne(schema, stack, left, store, Ok(()), now)
    }

    lemma {:induction false} PassedNothing(reader: Reader, schema: Schema, g: Ground, stack: Option<seq<Layer>>, store: Store)
      requires Ready(reader, g, stack) && ListInUse(reader, g)
      ensures stack.Some? ==> Passed(schema, stack.value, stack.value, store, store)
    {
      hide Rel, Tidy, Land, Message.CheckingReader.Valid, CollectAll;
      Remaining(reader, g, stack);
    }

    lemma {:induction false} PassedOn(schema: Schema, stack: seq<Layer>, here: seq<Layer>, left: seq<Layer>,
        store: Store, mid: Store, r: Result<()>, now: Store)
      requires Passed(schema, stack, here, store, mid) && PassedOne(schema, here, left, mid, r, now)
      ensures PassedOne(schema, stack, left, store, r, now)
      ensures r.Ok? ==> Passed(schema, stack, left, store, now)
      ensures match r
              case Err(e) => stack != [] && Top(stack).Items? && CollectAll(schema, Top(stack).trees, store) == Err(e)
              case Ok(_) => true
    {
      hide CollectAll;
    }

    lemma {:induction false} PassedAll(schema: Schema, stack: seq<Layer>, left: seq<Layer>, store: Store, now: Store)
      requires Passed(schema, stack, left, store, now) && Top(left).trees == []
      ensures stack != [] && Top(stack).Items? && CollectAll(schema, Top(stack).trees, store) == Ok(now)
      ensures left != [] && Below(left) == Below(stack)
    {
      CollectNone(schema, now);
    }

    lemma {:induction false} EntriesFirst(schema: Schema, data: seq<byte>, c: Spec.Cursor, n: nat, store: Store)
      requires Consistent(schema) && n > 0 && LenLeft(c) > 0
      ensures var entry := NextEntryStep(schema, data, c);
              EntriesStep(schema, data, c, n, store)
              == match entry
                 case DataOver => DataOver
                 case Step(d, Err(e)) => Step(d, Err(e))
                 case Step(d, Ok(taken)) =>
                   match Collect(taken, store)
                   case Err(e) => Step(d, Err(e))
                   case Ok(next) => EntriesStep(schema, data, d, n - 1, next)
    {
      hide NextEntryStep, Collect;
    }

    lemma {:induction false} EntriesOver(schema: Schema, data: seq<byte>, c: Spec.Cursor, n: nat, store: Store)
      requires Consistent(schema) && LenLeft(c) == 0
      ensures EntriesStep(schema, data, c, n, store) == Step(c, Ok(store))
    {
    }

    lemma {:induction false} CollectNone(schema: Schema, store: Store)
      ensures CollectAll(schema, [], store) == Ok(store)
    {
    }

    /** Going through one entry and taking it into account is the first step of going through all. */
    lemma {:induction false} CollectOne(schema: Schema, stack: seq<Layer>, left: seq<Layer>, r: Result<Entry>, store: Store)
      requires EntryTreads(schema, stack, left, r) && Top(stack).trees != []
      ensures var trees := Top(stack).trees;
              match r
              case Err(e) => CollectAll(schema, trees, store) == Err(e)
              case Ok(entry) =>
                && left != [] && Top(left) == Items(trees[1..]) && Below(left) == Below(stack)
                && match Collect(entry, store)
                   case Err(e) => CollectAll(schema, trees, store) == Err(e)
                   case Ok(next) => CollectAll(schema, trees, store) == CollectAll(schema, trees[1..], next)
    {
      hide ReadEntry, ListOf, Collect;
      Pushed(Below(stack), Items(Top(stack).trees[1..]));
    }

    /** On the trees: `r` is what there is to the first of the entries left, or why there is none. */
    ghost predicate EntryTreads(schema: Schema, stack: seq<Layer>, left: seq<Layer>, r: Result<Entry>) {
      && stack != [] && Top(stack).Items?
      && var trees := Top(stack).trees;
      && r == EntryOf(schema, trees)
      && (r.Ok? ==> left == Below(stack) + [Items(trees[1..])])
    }

    function EntryOf(schema: Schema, trees: seq<Tlv>): Result<Entry> {
      var t :- FieldAt(trees, 0);
      var fields :- ListOf(t);
      ReadEntry(schema, fields)
    }

    /** What the meter does with a message body, whose handle is the only one it has. */
    method MeterReceived(reader: Reader, schema: Schema, base: nat, ghost g: Ground, ghost body: Option<seq<Tlv>>)
      returns (r: Result<()>)
      requires Consistent(schema) && this !in reader.Repr() && base == g.base
      requires Ready(reader, g, BodyStack(body)) && ListInUse(reader, g)
      modifies reader.Repr(), `activePower, `activeEnergy
      ensures reader.Steady(old(reader.reader.since), old(reader.reader.pending), old(reader.reader.faults))
      ensures r.Ok? ==>
                && reader.reader.faults == old(reader.reader.faults)
                && reader.Stands(base, g.land) && reader.handles == old(reader.handles)[..base]
      ensures Collected(reader, old(reader.reader.faults), MeterStep(schema, reader.reader.data, old(reader.View()), base, old(Found())), r)
      ensures body.Some? && reader.reader.faults == old(reader.reader.faults) ==>
                match Receive(schema, body.value, old(Found()))
                case Ok(store) => r == Ok(()) && Found() == store
                case Err(e) => r == Err(e)
    {
      hide TagStep, BodyStep, ElementOf, Message.CheckingReader.Valid, Rel, Tidy, Land, Meter.TagOf, BodyEntries;
      hide EntriesOf, CollectAll;
      ghost var stack, before := BodyStack(body), reader.handles;
      if body.Some? {
        EntriesSteps(schema, body.value);
      }
      var choice := new Meter.Choice(reader);
      var tag;
      tag, stack := choice.ReadTag(g, stack);
      if tag.Err? {
        return Err(tag.error);
      }
      GrownBelow(before, reader.handles, g.base, None);
      r, stack := ReceiveBody(reader, schema, tag.value, g, stack);
      if r.Err? {
        return;
      }
      DropAll(reader, g, base, stack);
      r := Ok(());
    }

    /** What follows the tag, with the body in use. */
    method ReceiveBody(reader: Reader, schema: Schema, tag: nat, ghost g: Ground, ghost stack: Option<seq<Layer>>)
      returns (r: Result<()>, ghost left: Option<seq<Layer>>)
      requires Consistent(schema) && this !in reader.Repr()
      requires Ready(reader, g, stack) && ListInUse(reader, g)
      modifies reader.Repr(), `activePower, `activeEnergy
      ensures reader.Steady(old(reader.reader.since), old(reader.reader.pending), old(reader.reader.faults))
      ensures r.Ok? ==>
                && reader.reader.faults == old(reader.reader.faults)
                && Ready(reader, g, left)
                && reader.SameBelow(g.base, old(reader.handles))
      ensures Collected(reader, old(reader.reader.faults),
                BodyStep(schema, reader.reader.data, old(reader.View()), tag, old(Found())), r)
      ensures left.Some? <==> stack.Some?
      ensures stack.Some? && reader.reader.faults == old(reader.reader.faults) ==>
                && stack.value != [] && Top(stack.value).Items?
                && match BodyEntries(schema, tag, Top(stack.value).trees)
                   case Err(e) => r == Err(e)
                   case Ok(entries) =>
                     match CollectAll(schema, entries, old(Found()))
                     case Ok(store) => r.Ok? && Found() == store
                     case Err(e) => r == Err(e)
    {
      hide ListStep, ResponseStep, ElementOf, Message.CheckingReader.Valid, Rel, Tidy, Land, Meter.ListAt, CollectAll;
      Remaining(reader, g, stack);
      if tag != schema.listResponse && tag !in schema.otherTags {
        return Err(UnsupportedTag(tag)), stack;
      }
      r, left := Meter.OpenList(reader, 0, g, stack);
      if r.Err? {
        return;
      }
      if tag == schema.listResponse {
        r, left := ReceiveList(reader, schema, g, left);
      } else {
        CollectNone(schema, Found());
      }
    }

    /** The entries to look through behind a tag: none unless it is that of a list response. */
    function BodyEntries(schema: Schema, tag: nat, rest: seq<Tlv>): Result<seq<Tlv>> {
      if tag != schema.listResponse && tag !in schema.otherTags then Err(UnsupportedTag(tag))
      else
        var fields :- Meter.ListAt(rest, 0);
        if tag == schema.listResponse then Meter.ListAt(fields, schema.valList) else Ok([])
    }

    /** The list response in use: its value list is looked through. */
    method ReceiveList(reader: Reader, schema: Schema, ghost g: Ground, ghost stack: Option<seq<Layer>>)
      returns (r: Result<()>, ghost left: Option<seq<Layer>>)
      requires Consistent(schema) && this !in reader.Repr()
      requires Ready(reader, g, stack) && ListInUse(reader, g)
      modifies reader.Repr(), `activePower, `activeEnergy
      ensures reader.Steady(old(reader.reader.since), old(reader.reader.pending), old(reader.reader.faults))
      ensures r.Ok? ==>
                && reader.reader.faults == old(reader.reader.faults)
                && Ready(reader, g, left)
                && reader.SameBelow(g.base, old(reader.handles))
      ensures Collected(reader, old(reader.reader.faults), ResponseStep(schema, reader.reader.data, old(reader.View()), old(Found())), r)
      ensures left.Some? <==> stack.Some?
      ensures stack.Some? && reader.reader.faults == old(reader.reader.faults) ==>
                && stack.value != [] && Top(stack.value).Items?
                && match Meter.ListAt(Top(stack.value).trees, schema.valList)
                   case Err(e) => r == Err(e)
                   case Ok(entries) =>
                     match CollectAll(schema, entries, old(Found()))
                     case Ok(store) => r.Ok? && Found() == store
                     case Err(e) => r == Err(e)
    {
      hide ElementOf, Message.CheckingReader.Valid, Message.CheckingReader.Repr, Ready, Meter.ListAt, CollectAll;
      r, left := Meter.OpenList(reader, schema.valList, g, stack);
      if r.Err? {
        return;
      }
      ghost var entries := reader.handles;
      r, left := LookThrough(reader, schema, g, left);
      if r.Ok? {
        GrownBelow(entries, reader.handles, g.base, None);
      }
    }

    ghost function BodyStack(body: Option<seq<Tlv>>): Option<seq<Layer>> {
      if body.Some? then Some([Items(body.value)]) else None
    }

    lemma {:induction false} EntriesSteps(schema: Schema, body: seq<Tlv>)
      ensures EntriesOf(schema, body)
              == match Meter.TagOf(body)
                 case Err(e) => Err(e)
                 case Ok(tag) =>
                   assert body != [];
                   BodyEntries(schema, tag, body[1..])
    {
      hide ListOf, NumberOf, Be;
    }

    /** Any other callback: it performs the operations it chooses, as far as its handles offer them, and replies. */
    method StrategyReceived(reader: Reader, strategy: Strategy, steps: nat, base: nat, ghost g: Ground, ghost body: Option<seq<Tlv>>)
      returns (r: Result<()>)
      requires this !in reader.Repr() && base == g.base
      requires Ready(reader, g, BodyStack(body)) && |reader.handles| > base
      modifies reader.Repr(), `heard
      ensures reader.Steady(old(reader.reader.since), old(reader.reader.pending), old(reader.reader.faults))
      ensures r.Ok? ==>
                && reader.reader.faults == old(reader.reader.faults)
                && reader.Stands(base, g.land) && reader.handles == old(reader.handles)[..base]
      ensures Follows(reader, old(reader.reader.faults),
                CallbackStep(Strategic(strategy, steps), reader.reader.data, old(reader.View()), base, State(Found(), old(heard))), r)
      ensures reader.reader.faults == old(reader.reader.faults) ==>
                heard == HeardThen(Strategic(strategy, steps), reader.reader.data, old(reader.View()), base, old(heard))
      ensures reader.reader.faults > old(reader.reader.faults) ==> heard == old(heard)
      ensures body.Some? && reader.reader.faults == old(reader.reader.faults) ==>
                match WalkRun([Items(body.value)], strategy, old(heard), [], steps)
                case TourAborted(e) => r == Err(e)
                case Tour(_, log) => r == ReplyOf(strategy, old(heard), log) && heard == old(heard) + [log]
    {
      hide Message.CheckingReader.Valid, Rel, Tidy, Land, Fits, Walk, WalkRun, Run, Apply;
      var log, left := [], steps;
      var choice := strategy(heard, log);
      ghost var stack, before, data := BodyStack(body), reader.handles, reader.reader.data;
      while left > 0 && choice.Do? && Enabled(reader.handles, base, choice.op)
        invariant heard == old(heard) && choice == strategy(heard, log)
        invariant reader.Steady(old(reader.reader.since), old(reader.reader.pending), old(reader.reader.faults))
        invariant reader.reader.faults == old(reader.reader.faults)
        invariant Ready(reader, g, stack) && reader.SameBelow(base, before)
        invariant Run(data, old(reader.View()), base, strategy, heard, [], steps)
                  == Run(data, reader.View(), base, strategy, heard, log, left)
        invariant stack.Some? <==> body.Some?
        invariant body.Some? ==>
                    WalkRun([Items(body.value)], strategy, heard, [], steps) == WalkRun(stack.value, strategy, heard, log, left)
        decreases left
      {
        if body.Some? {
          EnabledOnTrees(reader, g, stack.value, choice.op);
          WalkRunStep(stack.value, strategy, heard, log, left);
        }
        RunStep(data, reader.View(), base, strategy, heard, log, left);
        var seen;
        seen, stack := reader.Use(choice.op, base, stack, g.tail, g.land);
        if seen.Err? && !Soft(seen.error) {
          return Err(seen.error);
        }
        log, left := log + [seen], left - 1;
        choice := strategy(heard, log);
      }
      if body.Some? {
        if left > 0 && choice.Do? {
          EnabledOnTrees(reader, g, stack.value, choice.op);
        }
        WalkRunEnds(stack.value, strategy, heard, log, left);
      }
      RunEnds(data, reader.View(), base, strategy, heard, log, left);
      DropAll(reader, g, base, stack);
      r := if choice.Reply? then choice.reply else Ok(());
      heard := heard + [log];
    }

    lemma {:induction false} RunEnds(data: seq<byte>, c: Spec.Cursor, base: nat, strategy: Strategy, heard: Past,
        log: seq<Result<Obs>>, steps: nat)
      requires var choice := strategy(heard, log);
               steps == 0 || choice.Reply? || !Enabled(c.handles, base, choice.op)
      ensures Run(data, c, base, strategy, heard, log, steps) == Ran(c, log)
    {
    }

    lemma {:induction false} RunStep(data: seq<byte>, c: Spec.Cursor, base: nat, strategy: Strategy, heard: Past,
        log: seq<Result<Obs>>, steps: nat)
      requires steps > 0 && strategy(heard, log).Do? && Enabled(c.handles, base, strategy(heard, log).op)
      ensures Run(data, c, base, strategy, heard, log, steps)
              == match Apply(data, c, strategy(heard, log).op)
                 case DataOver => RanDry
                 case Step(d, r) =>
                   if r.Err? && !Soft(r.error) then Aborted(d, r.error)
                   else Run(data, d, base, strategy, heard, log + [r], steps - 1)
    {
      hide Apply;
    }

    lemma {:induction false} WalkRunEnds(stack: seq<Layer>, strategy: Strategy, heard: Past,
        log: seq<Result<Obs>>, steps: nat)
      requires var choice := strategy(heard, log);
               steps == 0 || choice.Reply? || stack == [] || !Fits(Top(stack), choice.op)
      ensures WalkRun(stack, strategy, heard, log, steps) == Tour(stack, log)
    {
    }

    lemma {:induction false} WalkRunStep(stack: seq<Layer>, strategy: Strategy, heard: Past,
        log: seq<Result<Obs>>, steps: nat)
      requires steps > 0 && strategy(heard, log).Do? && stack != [] && Fits(Top(stack), strategy(heard, log).op)
      ensures var w := Walk(stack, strategy(heard, log).op);
              WalkRun(stack, strategy, heard, log, steps)
              == if WalkGoesOn(w) then WalkRun(w.stack, strategy, heard, log + [w.result], steps - 1)
                 else TourAborted(w.result.error)
    {
    }

    lemma {:induction false} EnabledOnTrees(reader: Reader, g: Ground, stack: seq<Layer>, op: Op)
      requires Ready(reader, g, Some(stack))
      ensures Enabled(reader.handles, g.base, op) <==> stack != [] && Fits(Top(stack), op)
    {
      hide ElementOf, Message.CheckingReader.Valid, Rel, Tidy, Land, Apply, Walk;
      StepRefines(reader.reader.data, reader.View(), g.base, stack, g.tail, op);
    }

    /** One message: its body is the handle in use, the only one that the callback gets. */
    method OnMessageReceived(reader: Reader, base: nat, ghost g: Ground, ghost body: Option<seq<Tlv>>)
      returns (r: Result<()>)
      requires Sensible(behaviour) && this !in reader.Repr() && base == g.base
      requires Ready(reader, g, BodyStack(body)) && ListInUse(reader, g)
      modifies reader.Repr(), this
      ensures reader.Steady(old(reader.reader.since), old(reader.reader.pending), old(reader.reader.faults))
      ensures events == old(events) + [MessageReceived]
      ensures r.Ok? ==>
                && reader.reader.faults == old(reader.reader.faults)
                && reader.Stands(base, g.land) && reader.handles == old(reader.handles)[..base]
      ensures Follows(reader, old(reader.reader.faults), CallbackStep(behaviour, reader.reader.data, old(reader.View()), base, old(Memory())), r)
      ensures reader.reader.faults == old(reader.reader.faults) ==>
                heard == HeardThen(behaviour, reader.reader.data, old(reader.View()), base, old(heard))
      ensures reader.reader.faults > old(reader.reader.faults) ==> heard == old(heard)
      ensures body.Some? && reader.reader.faults == old(reader.reader.faults) ==>
                match OnMessage(behaviour, body.value, old(Memory()))
                case Ok(next) => r.Ok? && Memory() == next
                case Err(e) => r == Err(e)
    {
      hide ElementOf, Message.CheckingReader.Valid, Rel, Tidy, Land, WalkRun, Receive;
      events := events + [MessageReceived];
      match behaviour
      case Meter(schema) => r := MeterReceived(reader, schema, base, g, body);
      case Strategic(strategy, steps) => r := StrategyReceived(reader, strategy, steps, base, g, body);
    }

    lemma {:induction false} NextFields(stack: seq<Layer>, left: seq<Layer>, r: Result<nat>)
      requires NextTreads(stack, List, left, r) && r.Ok?
      ensures Top(stack).trees != [] && left != [] && Below(left) != []
      ensures var trees := Top(stack).trees;
              && Top(left) == LayerOf(trees[0])
              && Below(left) == Below(stack) + [Items(trees[1..])]
              && Below(Below(left)) == Below(stack) && Top(Below(left)) == Items(trees[1..])
              && (Top(left).Items? ==> ListOf(trees[0]) == Ok(Top(left).trees))
    {
      var trees := Top(stack).trees;
      ExpectShape(trees, List);
      Pushed(Below(stack) + [Items(trees[1..])], LayerOf(trees[0]));
      Pushed(Below(stack), Items(trees[1..]));
    }
  }

  function Both(store: Store): Option<(Reading, Reading)> {
    match (store.power, store.energy)
    case (Some(power), Some(energy)) => Some((power, energy))
    case _ => None
  }
}
