/** What the meter's callback makes of the trees in a message body. */
module Readings {
  import opened Bytes
  import opened Errors
  import opened Tlv
  import opened Walker
  import Values

  const OBIS_ACTIVE_ENERGY: seq<byte> := [0x01, 0x00, 0x01, 0x08, 0x00, 0xFF]
  const OBIS_ACTIVE_POWER: seq<byte> := [0x01, 0x00, 0x10, 0x07, 0x00, 0xFF]

  /** The longest object name that is looked at. */
  const NAME_BUFFER: nat := 7

  /**
   What the generated code takes from the specification: the tag of the list response and the
   other tags of a message body, the index of the value list in a list response, the indices
   of scaler and value in a list entry (its name comes first), and whether a value can be a list.
   */
  datatype Schema = Schema(listResponse: nat, otherTags: set<nat>, valList: nat, scaler: nat, value: nat, subLists: bool)

  predicate Consistent(schema: Schema) {
    0 < schema.scaler < schema.value
  }

  // ------------------------------------------------------ reading trees

  function LayerOf(t: Tlv): Layer {
    match t
    case Prim(ty, payload) => Payload(ty, payload)
    case Node(items) => Items(items)
  }

  /** What `next_*` makes of a tree when a certain type is asked for. */
  function Expect(t: Tlv, ty: TlvType): Result<Layer> {
    if t == Prim(String, []) then Err(NoneTlv)
    else if t.Prim? && t.ty.Other? then Err(UnsupportedTlvType(t.ty.raw))
    else if HandleOf(LayerOf(t)).ty == ty then Ok(LayerOf(t))
    else Err(UnexpectedValue)
  }

  /** The field with index `i`. */
  function FieldAt(fields: seq<Tlv>, i: nat): Result<Tlv> {
    if i < |fields| then Ok(fields[i]) else Err(EndOfList)
  }

  function ListOf(t: Tlv): Result<seq<Tlv>> {
    var f :- Expect(t, List);
    Ok(if f.Items? then f.trees else [])
  }

  function BytesOf(f: Layer): seq<byte> {
    if f.Payload? then f.bytes else []
  }

  function StringOf(t: Tlv): Result<seq<byte>> {
    var f :- Expect(t, String);
    Ok(BytesOf(f))
  }

  /** The payload of a number with `min` to `max` bytes. */
  function NumberOf(t: Tlv, ty: TlvType, min: nat, max: nat): Result<seq<byte>> {
    var f :- Expect(t, ty);
    Sized(BytesOf(f), min, max)
  }

  function Sized(bytes: seq<byte>, min: nat, max: nat): Result<seq<byte>> {
    if min <= |bytes| <= max then Ok(bytes) else Err(UnsupportedLen(|bytes|))
  }

  /** An optional one-byte number; 0 if it is absent. */
  function ScalerOf(t: Tlv): Result<int> {
    if t == Prim(String, []) then Ok(0)
    else
      var payload :- NumberOf(t, Integer, 1, 1);
      Ok(Values.Value(payload, true))
  }

  /** A value: a number, or something else that is none. */
  function ValueOf(schema: Schema, t: Tlv): Result<Option<int>> {
    match t
    case Node(_) => if schema.subLists then Ok(None) else Err(UnexpectedValue)
    case Prim(ty, payload) =>
      match ty
      case String => if payload == [] then Err(UnexpectedValue) else Ok(None)
      case Boolean => if |payload| == 1 then Ok(None) else Err(UnsupportedLen(|payload|))
      case Other(raw) => Err(UnsupportedTlvType(raw))
      case List => Err(UnexpectedValue)
      case _ =>
        if 1 <= |payload| <= 8 then Ok(Some(Values.Value(payload, ty == Integer))) else Err(UnexpectedValue)
  }

  datatype Entry = TooLong | Entry(name: seq<byte>, scaler: int, value: Option<int>)

  function ReadEntry(schema: Schema, fields: seq<Tlv>): Result<Entry> {
    var nameField :- FieldAt(fields, 0);
    var name :- StringOf(nameField);
    if |name| > NAME_BUFFER then Ok(TooLong)
    else
      var scalerField :- FieldAt(fields, schema.scaler);
      var scaler :- ScalerOf(scalerField);
      var valueField :- FieldAt(fields, schema.value);
      var value :- ValueOf(schema, valueField);
      Ok(Entry(name, scaler, value))
  }

  // --------------------------------------------------------- collecting

  datatype Reading = Reading(scaler: int, value: nat)

  /** The two readings of the frame being received. */
  datatype Store = Store(power: Option<Reading>, energy: Option<Reading>)

  const EMPTY: Store := Store(None, None)

  /** `u64::try_from` of a value that must be a number. */
  function Unsigned64(value: Option<int>): Result<nat> {
    match value
    case None => Err(UnexpectedValue)
    case Some(v) => if 0 <= v < 0x1_0000_0000_0000_0000 then Ok(v) else Err(TryFromIntError)
  }

  /** Taking one entry into account: a reading must be a natural number and come only once. */
  function Collect(entry: Entry, store: Store): Result<Store> {
    match entry
    case TooLong => Ok(store)
    case Entry(name, scaler, value) =>
      if name == OBIS_ACTIVE_POWER then
        var v :- Unsigned64(value);
        if store.power.Some? then Err(UnexpectedValue) else Ok(store.(power := Some(Reading(scaler, v))))
      else if name == OBIS_ACTIVE_ENERGY then
        var v :- Unsigned64(value);
        if store.energy.Some? then Err(UnexpectedValue) else Ok(store.(energy := Some(Reading(scaler, v))))
      else Ok(store)
  }

  function CollectAll(schema: Schema, entries: seq<Tlv>, store: Store): Result<Store>
    decreases |entries|
  {
    if entries == [] then Ok(store)
    else
      var fields :- ListOf(entries[0]);
      var entry :- ReadEntry(schema, fields);
      var next :- Collect(entry, store);
      CollectAll(schema, entries[1..], next)
  }

  /** The entries of a message body: none unless it is a list response. */
  function EntriesOf(schema: Schema, body: seq<Tlv>): Result<seq<Tlv>> {
    var tagField :- FieldAt(body, 0);
    var tag :- NumberOf(tagField, Unsigned, 1, 4);
    if Be(tag) == schema.listResponse then
      var response :- FieldAt(body, 1);
      var fields :- ListOf(response);
      var valList :- FieldAt(fields, schema.valList);
      ListOf(valList)
    else if Be(tag) in schema.otherTags then
      var other :- FieldAt(body, 1);
      var _ :- ListOf(other);
      Ok([])
    else Err(UnsupportedTag(Be(tag)))
  }

  /** What the meter's callback makes of one message body. */
  function Receive(schema: Schema, body: seq<Tlv>, store: Store): Result<Store> {
    var entries :- EntriesOf(schema, body);
    CollectAll(schema, entries, store)
  }

  // ------------------------------------------------- what the store holds

  /** The readings with a certain name among some entries, in order. */
  function Named(schema: Schema, entries: seq<Tlv>, name: seq<byte>): seq<Reading>
    decreases |entries|
  {
    if entries == [] then [] else NamedOne(schema, entries[0], name) + Named(schema, entries[1..], name)
  }

  /** The reading in one entry, if it has that name. */
  function NamedOne(schema: Schema, entry: Tlv, name: seq<byte>): seq<Reading> {
    match ListOf(entry)
    case Err(_) => []
    case Ok(fields) =>
      match ReadEntry(schema, fields)
      case Ok(Entry(n, scaler, Some(v))) => if n == name && v >= 0 then [Reading(scaler, v)] else []
      case _ => []
  }

  function Listed(o: Option<Reading>): seq<Reading> {
    match o
    case None => []
    case Some(r) => [r]
  }

  /** Taking one entry into account adds the readings in it. */
  lemma {:induction false} CollectsOne(schema: Schema, first: Tlv, entry: Entry, store: Store)
    requires ListOf(first).Ok? && ReadEntry(schema, ListOf(first).value) == Ok(entry)
    requires Collect(entry, store).Ok?
    ensures var next := Collect(entry, store).value;
            && Listed(next.power) == Listed(store.power) + NamedOne(schema, first, OBIS_ACTIVE_POWER)
            && Listed(next.energy) == Listed(store.energy) + NamedOne(schema, first, OBIS_ACTIVE_ENERGY)
  {
    hide ReadEntry, ListOf;
    assert OBIS_ACTIVE_POWER[2] != OBIS_ACTIVE_ENERGY[2];
  }

  /** Names that are not read as readings do not touch the store; each of the two comes at most once. */
  lemma {:induction false} CollectsExactly(schema: Schema, entries: seq<Tlv>, store: Store)
    requires CollectAll(schema, entries, store).Ok?
    ensures var after := CollectAll(schema, entries, store).value;
            && Listed(after.power) == Listed(store.power) + Named(schema, entries, OBIS_ACTIVE_POWER)
            && Listed(after.energy) == Listed(store.energy) + Named(schema, entries, OBIS_ACTIVE_ENERGY)
    decreases |entries|
  {
    if entries != [] {
      hide ReadEntry, ListOf, NamedOne, Collect, Listed;
      var entry := ReadEntry(schema, ListOf(entries[0]).value).value;
      CollectsOne(schema, entries[0], entry, store);
      CollectsExactly(schema, entries[1..], Collect(entry, store).value);
    }
  }

  // ---------------------------------------------------- what is taken at all

  /** An entry whose fields can be read, and whose value is a natural number if it is named as a reading. */
  predicate Readable(schema: Schema, entry: Tlv) {
    && ListOf(entry).Ok?
    && match ReadEntry(schema, ListOf(entry).value)
       case Err(_) => false
       case Ok(TooLong) => true
       case Ok(Entry(name, _, value)) => name == OBIS_ACTIVE_POWER || name == OBIS_ACTIVE_ENERGY ==> Unsigned64(value).Ok?
  }

  predicate AllReadable(schema: Schema, entries: seq<Tlv>) {
    forall i :: 0 <= i < |entries| ==> Readable(schema, entries[i])
  }

  /** Some more readings fit into the store: it has room for one of each kind. */
  predicate RoomFor(store: Store, power: nat, energy: nat) {
    |Listed(store.power)| + power <= 1 && |Listed(store.energy)| + energy <= 1
  }

  lemma {:induction false} TakesOneExactly(schema: Schema, first: Tlv, store: Store)
    ensures ListOf(first).Ok? && ReadEntry(schema, ListOf(first).value).Ok?
            && Collect(ReadEntry(schema, ListOf(first).value).value, store).Ok?
            <==> Readable(schema, first)
                 && RoomFor(store, |NamedOne(schema, first, OBIS_ACTIVE_POWER)|, |NamedOne(schema, first, OBIS_ACTIVE_ENERGY)|)
  {
    hide ReadEntry, ListOf;
    assert OBIS_ACTIVE_POWER[2] != OBIS_ACTIVE_ENERGY[2];
  }

  /** Entries are taken exactly if all of them can be read and each of the two readings comes at most once. */
  lemma {:induction false} TakesExactly(schema: Schema, entries: seq<Tlv>, store: Store)
    ensures CollectAll(schema, entries, store).Ok?
            <==> AllReadable(schema, entries)
                 && RoomFor(store, |Named(schema, entries, OBIS_ACTIVE_POWER)|, |Named(schema, entries, OBIS_ACTIVE_ENERGY)|)
    decreases |entries|
  {
    if entries != [] {
      hide ReadEntry, ListOf, NamedOne, Collect, Readable;
      var first := entries[0];
      TakesOneExactly(schema, first, store);
      ReadableFirst(schema, entries);
      if ListOf(first).Ok? && ReadEntry(schema, ListOf(first).value).Ok? {
        var entry := ReadEntry(schema, ListOf(first).value).value;
        if Collect(entry, store).Ok? {
          CollectsOne(schema, first, entry, store);
          TakesExactly(schema, entries[1..], Collect(entry, store).value);
        }
      }
    }
  }

  lemma {:induction false} ReadableFirst(schema: Schema, entries: seq<Tlv>)
    requires entries != []
    ensures AllReadable(schema, entries) <==> Readable(schema, entries[0]) && AllReadable(schema, entries[1..])
  {
    hide Readable;
    if Readable(schema, entries[0]) && AllReadable(schema, entries[1..]) {
      forall i | 0 <= i < |entries|
        ensures Readable(schema, entries[i])
      {
        if i > 0 {
          assert entries[1..][i - 1] == entries[i];
        }
      }
    }
  }

  /** Whatever else is read under another name, in a list entry or anywhere, is not taken for a reading. */
  lemma {:induction false} OtherNamesIgnored(schema: Schema, t: Tlv, name: seq<byte>, scaler: int, value: Option<int>, store: Store)
    requires ListOf(t).Ok? && ReadEntry(schema, ListOf(t).value) == Ok(Entry(name, scaler, value))
    requires name != [0x01, 0x00, 0x10, 0x07, 0x00, 0xFF] && name != [0x01, 0x00, 0x01, 0x08, 0x00, 0xFF]
    ensures Collect(Entry(name, scaler, value), store) == Ok(store)
    ensures NamedOne(schema, t, OBIS_ACTIVE_POWER) == [] && NamedOne(schema, t, OBIS_ACTIVE_ENERGY) == []
  {
    hide ReadEntry, ListOf;
  }

  /** Names of eight bytes and more are not looked at, nor is anything behind them. */
  lemma {:induction false} LongNamesIgnored(schema: Schema, fields: seq<Tlv>, name: seq<byte>, store: Store)
    requires fields != [] && fields[0] == Prim(String, name) && name != []
    ensures |name| >= 8 ==> ReadEntry(schema, fields) == Ok(TooLong) && Collect(TooLong, store) == Ok(store)
    ensures |name| <= 7 ==> ReadEntry(schema, fields) != Ok(TooLong)
  {
    hide ScalerOf, ValueOf;
  }

  /** A body of another known kind is accepted and carries no reading; one of an unknown kind is refused. */
  lemma {:induction false} OtherKinds(schema: Schema, tag: seq<byte>, fields: seq<Tlv>, store: Store)
    requires 1 <= |tag| <= 4 && Be(tag) != schema.listResponse
    ensures var body := [Prim(Unsigned, tag), Node(fields)];
            Receive(schema, body, store) == if Be(tag) in schema.otherTags then Ok(store) else Err(UnsupportedTag(Be(tag)))
  {
    hide Be;
  }

  /** Exactly these are values: numbers of one to eight bytes, with the number they stand for. */
  lemma {:induction false} NumbersAreValues(schema: Schema, t: Tlv, v: int)
    ensures ValueOf(schema, t) == Ok(Some(v))
            <==> && t.Prim? && (t.ty == Unsigned || t.ty == Integer) && 1 <= |t.payload| <= 8
                 && (if t.ty == Integer then
                       -(Pow256(|t.payload|) as int) <= 2 * v < Pow256(|t.payload|)
                     else 0 <= v < Pow256(|t.payload|))
                 && exists k: int :: v == Be(t.payload) + k * Pow256(|t.payload|)
  {
    if t.Prim? && (t.ty == Unsigned || t.ty == Integer) && 1 <= |t.payload| <= 8 {
      var signed := t.ty == Integer;
      Values.ValueBound(t.payload, signed);
      if if signed then -(Pow256(|t.payload|) as int) <= 2 * v < Pow256(|t.payload|) else 0 <= v < Pow256(|t.payload|) {
        Values.ValueExactly(t.payload, signed, v);
      }
    }
    hide Be, Pow256, Values.Value;
  }

  /** These are read without being one: strings, flags of one byte, and lists if the specification allows them. */
  lemma {:induction false} OthersAreNone(schema: Schema, t: Tlv)
    ensures ValueOf(schema, t) == Ok(None)
            <==> match t
                 case Node(_) => schema.subLists
                 case Prim(ty, payload) => (ty == String && payload != []) || (ty == Boolean && |payload| == 1)
  {
    hide Values.Value;
  }

  /** A reading must be a natural number of 64 bits at most: others are refused, whatever has been stored. */
  lemma {:induction false} ReadingsAreNaturals(scaler: int, value: Option<int>, store: Store)
    ensures var entry := Entry([0x01, 0x00, 0x10, 0x07, 0x00, 0xFF], scaler, value);
            Collect(entry, store)
            == if value.None? then Err(UnexpectedValue)
               else if value.value < 0 || value.value >= Pow256(8) then Err(TryFromIntError)
               else if store.power.Some? then Err(UnexpectedValue)
               else Ok(Store(Some(Reading(scaler, value.value)), store.energy))
    ensures var entry := Entry([0x01, 0x00, 0x01, 0x08, 0x00, 0xFF], scaler, value);
            Collect(entry, store)
            == if value.None? then Err(UnexpectedValue)
               else if value.value < 0 || value.value >= Pow256(8) then Err(TryFromIntError)
               else if store.energy.Some? then Err(UnexpectedValue)
               else Ok(Store(store.power, Some(Reading(scaler, value.value))))
  {
    assert Pow256(4) == 0x1_0000_0000;
    assert Pow256(8) == 0x1_0000_0000_0000_0000;
    assert OBIS_ACTIVE_POWER[2] != OBIS_ACTIVE_ENERGY[2];
  }
}
