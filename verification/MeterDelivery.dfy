/** From what a meter sends to what is reported: exactly which messages lead to a report. */
module MeterDelivery {
  import opened Bytes
  import opened Errors
  import opened Tlv
  import opened Readings
  import opened Callbacks
  import opened Sending
  import opened Task
  import opened Reports
  import opened Delivery
  import Deframing
  import Headers
  import ReadFrame
  import Values

  function BodiesSent(ms: seq<Draft>): (r: seq<seq<Tlv>>)
    ensures |r| == |ms|
  {
    if ms == [] then [] else [ms[0].body] + BodiesSent(ms[1..])
  }

  /** A body whose kind is known, and whose entries, if it is a list response, can all be read. */
  predicate Understood(schema: Schema, body: seq<Tlv>) {
    EntriesOf(schema, body).Ok? && AllReadable(schema, EntriesOf(schema, body).value)
  }

  predicate AllUnderstood(schema: Schema, ms: seq<Draft>) {
    forall i :: 0 <= i < |ms| ==> Understood(schema, ms[i].body)
  }

  /** The readings that the messages carry. */
  function Power(schema: Schema, ms: seq<Draft>): seq<Reading> {
    ReadingsIn(schema, BodiesSent(ms), OBIS_ACTIVE_POWER)
  }

  function Energy(schema: Schema, ms: seq<Draft>): seq<Reading> {
    ReadingsIn(schema, BodiesSent(ms), OBIS_ACTIVE_ENERGY)
  }

  lemma {:induction false} FirstReadings(schema: Schema, ms: seq<Draft>)
    requires ms != []
    ensures var entries := EntriesOf(schema, ms[0].body);
            && Power(schema, ms) == (if entries.Ok? then Named(schema, entries.value, OBIS_ACTIVE_POWER) else []) + Power(schema, ms[1..])
            && Energy(schema, ms) == (if entries.Ok? then Named(schema, entries.value, OBIS_ACTIVE_ENERGY) else []) + Energy(schema, ms[1..])
    ensures AllUnderstood(schema, ms) <==> Understood(schema, ms[0].body) && AllUnderstood(schema, ms[1..])
  {
    hide EntriesOf, Named, Understood;
    assert BodiesSent(ms)[1..] == BodiesSent(ms[1..]);
    if Understood(schema, ms[0].body) && AllUnderstood(schema, ms[1..]) {
      forall i | 0 <= i < |ms|
        ensures Understood(schema, ms[i].body)
      {
        if i > 0 {
          assert ms[1..][i - 1] == ms[i];
        }
      }
    }
  }

  /** The meter accepts messages exactly if it understands all of them, and each reading comes at most once. */
  lemma {:induction false} MeterAccepts(schema: Schema, ms: seq<Draft>, st: State)
    ensures Tell(Meter(schema), ms, st).Some?
            <==> AllUnderstood(schema, ms) && RoomFor(st.store, |Power(schema, ms)|, |Energy(schema, ms)|)
    ensures Tell(Meter(schema), ms, st).Some? ==>
              var after := Tell(Meter(schema), ms, st).value;
              && Listed(after.store.power) == Listed(st.store.power) + Power(schema, ms)
              && Listed(after.store.energy) == Listed(st.store.energy) + Energy(schema, ms)
    decreases |ms|
  {
    if ms != [] {
      hide EntriesOf, CollectAll, AllReadable, Named, Listed, Power, Energy;
      FirstReadings(schema, ms);
      hide AllUnderstood;
      var entries := EntriesOf(schema, ms[0].body);
      if entries.Ok? {
        TakesExactly(schema, entries.value, st.store);
        if CollectAll(schema, entries.value, st.store).Ok? {
          CollectsExactly(schema, entries.value, st.store);
          MeterAccepts(schema, ms[1..], OnMessage(Meter(schema), ms[0].body, st).value);
        }
      }
    } else {
      assert Power(schema, []) == [] && Energy(schema, []) == [];
      RoomAlready(st.store);
    }
  }

  lemma {:induction false} RoomAlready(store: Store)
    ensures RoomFor(store, 0, 0)
    ensures Listed(store.power) + [] == Listed(store.power) && Listed(store.energy) + [] == Listed(store.energy)
  {
  }

  /** What is to be reported of some messages. */
  function ReportOf(schema: Schema, ms: seq<Draft>): End {
    var power, energy := Power(schema, ms), Energy(schema, ms);
    if AllUnderstood(schema, ms) && |power| <= 1 && |energy| <= 1 then
      End(true, if power != [] && energy != [] then Some((power[0], energy[0])) else None)
    else End(false, None)
  }

  /**
   What a meter sends is reported: a frame of messages whose marker is found leads to a report
   exactly if the messages are all understood and carry one reading of either kind, and it
   consists of these two.
   */
  lemma {:induction false} MeterReports(schema: Schema, stream: seq<byte>, r: Round, q: nat, ms: seq<Draft>)
    requires FrameAt(stream, q, ms)
    requires Faithful(Meter(schema), stream, r) && Smooth(r) && r.from <= q && r.start == q + 8
    ensures r.end == Some(ReportOf(schema, ms))
  {
    hide FrameAt, Faithful, Tell, Power, Energy, AllUnderstood;
    NothingBefore(Meter(schema), stream, r);
    FrameReceived(Meter(schema), stream, r, q, ms);
    MeterAccepts(schema, ms, r.before);
    assert [] + Power(schema, ms) == Power(schema, ms) && [] + Energy(schema, ms) == Energy(schema, ms);
  }

  lemma {:induction false} NothingBefore(b: Behaviour, stream: seq<byte>, r: Round)
    requires Faithful(b, stream, r)
    ensures r.before.store == EMPTY
  {
    hide Deframing.DecodeFrame, ReadFrame.Halts, Interrupted;
  }

  // ------------------------------------------------------------ an example

  /** An entry with a name, a scaler and an unsigned value; the other fields are absent. */
  function EntryOf(schema: Schema, name: seq<byte>, scaler: byte, value: seq<byte>): Tlv {
    Node(seq(schema.value + 1, (i: nat) =>
      if i == 0 then Prim(String, name) else if i == schema.scaler then Prim(Integer, [scaler])
      else if i == schema.value then Prim(Unsigned, value) else Prim(String, [])))
  }

  /** A list response with some entries. */
  function ResponseOf(schema: Schema, tag: seq<byte>, entries: seq<Tlv>): seq<Tlv> {
    [Prim(Unsigned, tag), Node(seq(schema.valList + 1, (i: nat) => if i == schema.valList then Node(entries) else Prim(String, [])))]
  }

  lemma {:induction false} EntryRead(schema: Schema, name: seq<byte>, scaler: byte, value: seq<byte>)
    requires Consistent(schema) && 1 <= |name| <= NAME_BUFFER && 1 <= |value| <= 8
    ensures var t := EntryOf(schema, name, scaler, value);
            && ListOf(t).Ok?
            && ReadEntry(schema, ListOf(t).value) == Ok(Entry(name, Values.Value([scaler], true), Some(Be(value))))
            && Unsigned64(Some(Be(value))) == Ok(Be(value))
  {
    hide Be;
    BeBound(value);
    Pow256Grows(|value|);
  }

  lemma {:induction false} Pow256Grows(n: nat)
    requires n <= 8
    ensures Pow256(n) <= 0x1_0000_0000_0000_0000
    decreases 8 - n
  {
    assert Pow256(4) == 0x1_0000_0000;
    assert Pow256(8) == 0x1_0000_0000_0000_0000;
    if n < 8 {
      Pow256Grows(n + 1);
    }
  }

  lemma {:induction false} ResponseRead(schema: Schema, tag: seq<byte>, entries: seq<Tlv>)
    requires 1 <= |tag| <= 4 && Be(tag) == schema.listResponse
    ensures EntriesOf(schema, ResponseOf(schema, tag, entries)) == Ok(entries)
  {
    hide Be;
  }

  /**
   A message with one reading of either kind, numbers of up to eight bytes with their scalers:
   active power is register 16.7.0, active energy register 1.8.0.
   */
  function Sample(schema: Schema, tag: seq<byte>, powerScaler: byte, power: seq<byte>, energyScaler: byte, energy: seq<byte>): Draft {
    Draft([0x01], 0, 0, ResponseOf(schema, tag,
      [EntryOf(schema, [0x01, 0x00, 0x10, 0x07, 0x00, 0xFF], powerScaler, power),
       EntryOf(schema, [0x01, 0x00, 0x01, 0x08, 0x00, 0xFF], energyScaler, energy)]))
  }

  /** Whatever numbers a meter sends in such a message, these are reported. */
  lemma {:induction false} SampleReported(schema: Schema, tag: seq<byte>,
      powerScaler: byte, power: seq<byte>, energyScaler: byte, energy: seq<byte>)
    requires Consistent(schema) && 1 <= |tag| <= 4 && Be(tag) == schema.listResponse
    requires 1 <= |power| <= 8 && 1 <= |energy| <= 8
    ensures ReportOf(schema, [Sample(schema, tag, powerScaler, power, energyScaler, energy)])
            == End(true, Some((Reading(Values.Value([powerScaler], true), Be(power)),
                               Reading(Values.Value([energyScaler], true), Be(energy)))))
  {
    hide Be, ReadEntry, EntryOf, ResponseOf, ListOf, EntriesOf;
    var m := Sample(schema, tag, powerScaler, power, energyScaler, energy);
    var first := EntryOf(schema, OBIS_ACTIVE_POWER, powerScaler, power);
    var second := EntryOf(schema, OBIS_ACTIVE_ENERGY, energyScaler, energy);
    EntryRead(schema, OBIS_ACTIVE_POWER, powerScaler, power);
    EntryRead(schema, OBIS_ACTIVE_ENERGY, energyScaler, energy);
    ResponseRead(schema, tag, [first, second]);
    assert OBIS_ACTIVE_POWER[2] != OBIS_ACTIVE_ENERGY[2];
    NamedTwo(schema, first, second, OBIS_ACTIVE_POWER);
    NamedTwo(schema, first, second, OBIS_ACTIVE_ENERGY);
    FirstReadings(schema, [m]);
    assert [m][1..] == [];
    assert Power(schema, []) == [] && Energy(schema, []) == [];
  }

  /** For example, power bytes 01 02 with the scaler FF are 258 tenths, and the energy 01 is 1 as it is. */
  lemma {:induction false} SampleInNumbers(schema: Schema, tag: seq<byte>)
    requires Consistent(schema) && 1 <= |tag| <= 4 && Be(tag) == schema.listResponse
    ensures ReportOf(schema, [Sample(schema, tag, 0xFF, [0x01, 0x02], 0x00, [0x01])])
            == End(true, Some((Reading(-1, 258), Reading(0, 1))))
  {
    SampleReported(schema, tag, 0xFF, [0x01, 0x02], 0x00, [0x01]);
    hide ReportOf, Sample;
    Values.MinusOne();
    BeOne(0x01);
    BeOne(0x00);
    SwappedBe([0x01, 0x02]);
    assert Values.Value([0x00], true) == 0 by { assert Pow256(1) == 256; }
  }

  lemma {:induction false} NamedTwo(schema: Schema, first: Tlv, second: Tlv, name: seq<byte>)
    ensures Named(schema, [first, second], name) == NamedOne(schema, first, name) + NamedOne(schema, second, name)
  {
    hide NamedOne;
    assert [first, second][1..] == [second] && [second][1..] == [];
    assert Named(schema, [second], name) == NamedOne(schema, second, name) + [];
  }

  /** It can be sent if the lists are short enough. */
  lemma {:induction false} SampleFits(schema: Schema, tag: seq<byte>,
      powerScaler: byte, power: seq<byte>, energyScaler: byte, energy: seq<byte>)
    requires Consistent(schema) && schema.value <= 14 && schema.valList <= 14
    requires 1 <= |tag| <= 4 && |power| <= 8 && |energy| <= 8
    ensures Sendable(Sample(schema, tag, powerScaler, power, energyScaler, energy))
  {
    hide Headers.Encode;
    var m := Sample(schema, tag, powerScaler, power, energyScaler, energy);
    var first := EntryOf(schema, OBIS_ACTIVE_POWER, powerScaler, power);
    var second := EntryOf(schema, OBIS_ACTIVE_ENERGY, energyScaler, energy);
    EntryWritable(schema, OBIS_ACTIVE_POWER, powerScaler, power);
    EntryWritable(schema, OBIS_ACTIVE_ENERGY, energyScaler, energy);
    ResponseWritable(schema, tag, first, second);
    hide ResponseOf;
    SmallWritable(String, m.id);
    SmallWritable(Unsigned, [m.group]);
    assert HeadOf(m)[3] == Node(m.body);
  }

  lemma {:induction false} SmallWritable(ty: TlvType, payload: seq<byte>)
    requires Headers.Nameable(ty) && ty != List && |payload| <= 14
    ensures Writable(Prim(ty, payload))
  {
    hide Headers.Encode;
    ShortHeader(ty, |payload|);
  }

  lemma {:induction false} EntryWritable(schema: Schema, name: seq<byte>, scaler: byte, value: seq<byte>)
    requires schema.value <= 14 && |name| <= 14 && |value| <= 14
    ensures Writable(EntryOf(schema, name, scaler, value))
  {
    hide Headers.Encode;
    SmallWritable(String, name);
    SmallWritable(Integer, [scaler]);
    SmallWritable(Unsigned, value);
    SmallWritable(String, []);
  }

  lemma {:induction false} ResponseWritable(schema: Schema, tag: seq<byte>, first: Tlv, second: Tlv)
    requires schema.valList <= 14 && |tag| <= 14 && Writable(first) && Writable(second)
    ensures AllWritable(ResponseOf(schema, tag, [first, second]))
  {
    hide Headers.Encode;
    SmallWritable(Unsigned, tag);
    SmallWritable(String, []);
    assert Writable(Node([first, second]));
    assert Writable(ResponseOf(schema, tag, [first, second])[1]);
  }
}
