/** What the meter's callback reports, in terms of the frame's messages alone. */
module Reports {
  import opened Bytes
  import opened Errors
  import opened Tlv
  import opened Readings
  import opened Callbacks
  import opened Messages
  import opened MessageLists
  import opened Task
  import Deframing

  function BodiesOf(spans: seq<Span>): (r: seq<seq<Tlv>>)
    ensures |r| == |spans|
  {
    if spans == [] then [] else [spans[0].m.body] + BodiesOf(spans[1..])
  }

  /** The message bodies in a payload. */
  function Bodies(data: seq<byte>): seq<seq<Tlv>> {
    BodiesOf(Spans(data, 0, 0))
  }

  /** The readings with a certain name in some message bodies, in order. */
  function ReadingsIn(schema: Schema, bodies: seq<seq<Tlv>>, name: seq<byte>): seq<Reading> {
    if bodies == [] then []
    else
      var entries := EntriesOf(schema, bodies[0]);
      (if entries.Ok? then Named(schema, entries.value, name) else []) + ReadingsIn(schema, bodies[1..], name)
  }

  /** What a store holds after some bodies. */
  predicate Holds(schema: Schema, before: Store, bodies: seq<seq<Tlv>>, after: Store) {
    && Listed(after.power) == Listed(before.power) + ReadingsIn(schema, bodies, OBIS_ACTIVE_POWER)
    && Listed(after.energy) == Listed(before.energy) + ReadingsIn(schema, bodies, OBIS_ACTIVE_ENERGY)
  }

  lemma {:induction false} HoldsNothing(schema: Schema, store: Store)
    ensures Holds(schema, store, [], store)
  {
  }

  lemma {:induction false} HoldsOneMore(schema: Schema, before: Store, body: seq<Tlv>, next: Store, bodies: seq<seq<Tlv>>, after: Store)
    requires Receive(schema, body, before) == Ok(next) && Holds(schema, next, bodies, after)
    ensures Holds(schema, before, [body] + bodies, after)
  {
    hide EntriesOf, CollectAll, Named;
    CollectsExactly(schema, EntriesOf(schema, body).value, before);
    assert ([body] + bodies)[1..] == bodies;
  }

  /** The meter collects exactly the readings in the bodies, whatever it has observed before. */
  lemma {:induction false} CollectsFrame(schema: Schema, data: seq<byte>, s: Between)
    requires AcceptAll(Meter(schema), data, s).Some?
    ensures var (heard, st) := AcceptAll(Meter(schema), data, s).value;
            var bodies := BodiesOf(Spans(data, s.at, s.owed));
            && heard == |bodies| && st.heard == s.st.heard
            && Holds(schema, s.st.store, bodies, st.store)
    decreases |data| - s.at
  {
    hide MessageAt, ParseTrees, Receive, Holds, Spans;
    if s.at == |data| {
      NoSpans(data, s.owed);
      HoldsNothing(schema, s.st.store);
    } else {
      SpansFirst(Meter(schema), data, s);
      var next, spans := Accept(Meter(schema), data, s).value, Spans(data, s.at, s.owed);
      CollectsFrame(schema, data, next);
      HoldsOneMore(schema, s.st.store, spans[0].m.body, next.st.store, BodiesOf(spans[1..]),
        AcceptAll(Meter(schema), data, next).value.1.store);
    }
  }

  /** The meter's verdict on a frame does not depend on anything it has observed before. */
  lemma {:induction false} MeterForgets(schema: Schema, data: seq<byte>, s: Between, t: Between)
    requires s.at == t.at && s.owed == t.owed && s.st.store == t.st.store
    ensures AcceptAll(Meter(schema), data, s).Some? <==> AcceptAll(Meter(schema), data, t).Some?
    decreases |data| - s.at
  {
    hide MessageAt, ParseTrees, Receive;
    var b := Meter(schema);
    if s.at != |data| && Accept(b, data, s).Some? {
      MeterForgets(schema, data, Accept(b, data, s).value, Accept(b, data, t).value);
    }
  }

  /**
   In every round of a run, the meter reports exactly if the frame was valid and both readings
   are in its messages. It reports those two, each of which comes only once in the frame.
   Nothing from before the frame has any influence on this.
   */
  lemma {:induction false} ReportsExactly(schema: Schema, stream: seq<byte>, r: Round)
    requires Faithful(Meter(schema), stream, r) && r.end.Some?
    ensures var feed := Deframing.DecodeFrame(stream, r.start);
            var bodies := Bodies(feed.data);
            var power := ReadingsIn(schema, bodies, OBIS_ACTIVE_POWER);
            var energy := ReadingsIn(schema, bodies, OBIS_ACTIVE_ENERGY);
            var End(valid, report) := r.end.value;
            && (!r.faulty ==>
                  (valid <==> feed.verdict.Ended? && AcceptPayload(Meter(schema), feed.data, State(EMPTY, [])).Some?))
            && (valid ==> r.heard == |bodies| && |power| <= 1 && |energy| <= 1)
            && report == if valid && power != [] && energy != [] then Some((power[0], energy[0])) else None
  {
    hide Deframing.DecodeFrame, AcceptAll, Spans, BodiesOf, ReadingsIn;
    var data := Deframing.DecodeFrame(stream, r.start).data;
    MeterForgets(schema, data, Between(0, 0, r.before), Between(0, 0, State(EMPTY, [])));
    if r.end.value.valid {
      CollectsFrame(schema, data, Between(0, 0, r.before));
      var power := ReadingsIn(schema, Bodies(data), OBIS_ACTIVE_POWER);
      var energy := ReadingsIn(schema, Bodies(data), OBIS_ACTIVE_ENERGY);
      assert [] + power == power && [] + energy == energy;
    }
  }
}
