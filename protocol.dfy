/** The pure side of `ProtocolHandler` (pc-app/protocol.py): the frames its
    encoder methods build, the type routing of `create_packet`, and the ghost
    account of `batch_events`. The wire format and the decoder are in
    ProtocolFrames; the class itself is in ProtocolHandling. */
module Protocol {
  import opened Wrappers
  import opened Bytes
  import opened Checksum
  import opened JsonValues
  import opened ProtocolFrames
  import Batching

  /** An event as the capture side produces it: a Python dict. */
  type Event = map<string, Json>

  /** The sequence counter wraps at 65536 (it is packed as `<H`). */
  const SequenceModulus: nat := 0x1_0000

  /** PACKET_TYPES, keyed by upper-case names. */
  const PacketTypes: map<string, byte> := map[
    "MOUSE_MOVEMENT" := 0x01, "MOUSE_CLICK" := 0x02, "KEYBOARD_KEY" := 0x03, "SCROLL_EVENT" := 0x04,
    "GESTURE_START" := 0x05, "GESTURE_END" := 0x06, "CONTROL_SWITCH" := 0x07, "HEARTBEAT" := 0x08]

  /** Python's `int()` of a string, as the model receives it: None where
      it raises ValueError. */
  type IntParser = string -> Option<int>

  /** `int(event_data.get('timestamp', time.time() * 1000))` succeeds: the
      clock reading, a number and a bool convert; a string converts when
      `int()` parses it; None, a list and a dict raise. */
  predicate TimestampConverts(event: Event, parseInt: IntParser)
  {
    "timestamp" !in event ||
    match event["timestamp"]
    case JBool(_) => true
    case JNumber(_) => true
    case JString(s) => parseInt(s).Some?
    case _ => false
  }

  /** `create_packet` gets past its first lines: the timestamp converts,
      and the 'type' can be looked up in PACKET_TYPES (a list or a dict is
      unhashable and raises TypeError). */
  predicate Creatable(event: Event, parseInt: IntParser)
  {
    var name := Get(event, "type", JString(""));
    TimestampConverts(event, parseInt) && !name.JArray? && !name.JObject?
  }

  /** The encoder `create_packet` picks for an event, or Raises where one
      of its first lines raises. */
  datatype Route = JsonFallback | MouseMovementEncoder | MouseClickEncoder | KeyboardEncoder
                 | ScrollEncoder | ControlSwitchEncoder | Raises

  /** `PACKET_TYPES.get(event_data.get('type', ''), 0x00)` for a hashable
      type. */
  function TypeByteOf(event: Event): byte
  {
    var name := Get(event, "type", JString(""));
    if name.JString? && name.s in PacketTypes then PacketTypes[name.s] else 0x00
  }

  /** The branch structure of `create_packet`: a zero type byte falls back
      to JSON, and so does a name that none of the lower-case tests match. */
  function RouteOf(event: Event, parseInt: IntParser): Route
  {
    var name := Get(event, "type", JString(""));
    if !Creatable(event, parseInt) then Raises
    else if TypeByteOf(event) == 0x00 then JsonFallback
    else if name == JString("mouse_move") then MouseMovementEncoder
    else if name == JString("mouse_click") then MouseClickEncoder
    else if name == JString("key_press") || name == JString("key_release") then KeyboardEncoder
    else if name == JString("mouse_scroll") then ScrollEncoder
    else if name == JString("control_switch") then ControlSwitchEncoder
    else JsonFallback
  }

  /** No typed encoder is ever chosen: a non-zero type byte needs an
      upper-case name, and the encoders are chosen by lower-case ones. Every
      event that gets past the first lines takes the JSON fallback. */
  lemma RouteAlwaysJson(event: Event, parseInt: IntParser)
    ensures RouteOf(event, parseInt) == JsonFallback <==> Creatable(event, parseInt)
    ensures RouteOf(event, parseInt) != JsonFallback ==> RouteOf(event, parseInt) == Raises
  {
    var name := Get(event, "type", JString(""));
    if TypeByteOf(event) != 0x00 {
      assert name.s in PacketTypes.Keys;
      assert name.s in {"MOUSE_MOVEMENT", "MOUSE_CLICK", "KEYBOARD_KEY", "SCROLL_EVENT",
                        "GESTURE_START", "GESTURE_END", "CONTROL_SWITCH", "HEARTBEAT"};
    }
  }

  /** The payload of a JSON or batch frame: `struct.pack('<HH', sequence,
      len(data)) + data`. */
  function JsonPayload(sequence: nat, data: seq<byte>): (r: seq<byte>)
    requires sequence < SequenceModulus && |data| < 0x1_0000
    ensures |r| == |data| + 4 && r[4..] == data
  {
    ConcatParts(U16(sequence), U16(|data|), data);
    U16(sequence) + U16(|data|) + data
  }

  lemma JsonPayloadFields(sequence: nat, data: seq<byte>)
    requires sequence < SequenceModulus && |data| < 0x1_0000
    ensures var r := JsonPayload(sequence, data);
            LeValue(r[..2]) == sequence && LeValue(r[2..4]) == |data|
  {
    ConcatParts(U16(sequence), U16(|data|), data);
    U16Value(sequence);
    U16Value(|data|);
  }

  /** The frame `create_json_packet` builds from serialised event data, or
      None where `struct.pack('<HH', …)` raises because the data is 65536
      bytes or longer. */
  function JsonFrame(sequence: nat, data: seq<byte>, enabled: bool, compress: Compressor): Option<Packet>
    requires sequence < SequenceModulus
  {
    if |data| < 0x1_0000 then
      var c := Compress(JsonType, JsonPayload(sequence, data), enabled, compress);
      Some(Frame(c.0, c.1))
    else None
  }

  /** The frame `create_batch_packet` builds: never compressed. */
  function BatchFrame(sequence: nat, data: seq<byte>): Option<Packet>
    requires sequence < SequenceModulus
  {
    if |data| < 0x1_0000 then Some(Frame(BatchType, JsonPayload(sequence, data))) else None
  }

  /** `json.dumps(events)` of a list of events. */
  function EventList(events: seq<Event>): (j: Json)
    ensures j.JArray? && |j.items| == |events|
  {
    JArray(seq(|events|, i requires 0 <= i < |events| => JObject(events[i])))
  }

  /** The JSON payload carries its data back to the event: whenever the
      UTF-8 decoder and the JSON parser undo `json.dumps(...).encode()`,
      `parse_json_packet` returns the event. */
  lemma JsonPayloadDecodes(sequence: nat, event: Json, dumps: JsonSerializer, decodeUtf8: Utf8Decoder,
                           loads: JsonParser)
    requires sequence < SequenceModulus && |dumps(event)| < 0x1_0000
    requires decodeUtf8(dumps(event)).Some? && loads(decodeUtf8(dumps(event)).value) == Some(event)
    ensures ParseJsonPacket(JsonPayload(sequence, dumps(event)), decodeUtf8, loads) == Some(JsonMessage(event))
  {
    var p := JsonPayload(sequence, dumps(event));
    JsonPayloadFields(sequence, dumps(event));
    assert p[4..4 + |dumps(event)|] == dumps(event);
  }

  /** A JSON frame never decodes: 0xFF already carries the compression bit,
      so ORing it in changes nothing and the decoder masks it to 0x7F. */
  lemma JsonFrameNeverDecodes(sequence: nat, data: seq<byte>, enabled: bool, compress: Compressor,
                              decompress: Decompressor, decodeUtf8: Utf8Decoder, loads: JsonParser)
    requires sequence < SequenceModulus && |data| < 0x1_0000
    ensures JsonFrame(sequence, data, enabled, compress).Some?
    ensures ParsePacket(JsonFrame(sequence, data, enabled, compress).value, decompress, decodeUtf8, loads) == None
  {
    var c := Compress(JsonType, JsonPayload(sequence, data), enabled, compress);
    assert c.0 == JsonType;
    FrameLayout(c.0, c.1);
    JsonAndBatchNeverDecode(Frame(c.0, c.1), decompress, decodeUtf8, loads);
  }

  /** A batch frame never decodes either: 0xFE is masked to 0x7E. */
  lemma BatchFrameNeverDecodes(sequence: nat, data: seq<byte>,
                               decompress: Decompressor, decodeUtf8: Utf8Decoder, loads: JsonParser)
    requires sequence < SequenceModulus && |data| < 0x1_0000
    ensures BatchFrame(sequence, data).Some?
    ensures ParsePacket(BatchFrame(sequence, data).value, decompress, decodeUtf8, loads) == None
  {
    FrameLayout(BatchType, JsonPayload(sequence, data));
    JsonAndBatchNeverDecode(Frame(BatchType, JsonPayload(sequence, data)), decompress, decodeUtf8, loads);
  }

  /** A JSON frame is nine bytes longer than its data, or shorter when the
      compression rule fired. */
  lemma JsonFrameLength(sequence: nat, data: seq<byte>, enabled: bool, compress: Compressor)
    requires sequence < SequenceModulus && |data| < 0x1_0000
    ensures JsonFrame(sequence, data, enabled, compress).Some?
    ensures |JsonFrame(sequence, data, enabled, compress).value| <= |data| + 9
    ensures !enabled ==> |JsonFrame(sequence, data, enabled, compress).value| == |data| + 9
  {
  }

  /** The counter reached after a batch step, counted two ways. */
  lemma CounterShift(c: nat, before: nat, after: nat, base: nat)
    requires c == base + before && before <= after
    ensures (c + after - before) % SequenceModulus == (base + after) % SequenceModulus
  {
  }

  /** The counter one step on, modulo 65536, from a value already reduced. */
  lemma Advance(a: nat, before: nat, after: nat)
    requires before == a % SequenceModulus && after == (before + 1) % SequenceModulus
    ensures after == (a + 1) % SequenceModulus
  {
  }

  /** The counter value `create_batch_packet` reads for batch j of the
      batches `batch_events` forms from n events, starting from counter
      value start. Every event's packet takes one number and every batch
      packet one more; a batch other than the last is emitted right after
      the packet of the first event of the next batch, and the last batch
      after all n event packets. */
  ghost function EmittedAt(start: nat, batches: seq<seq<Batching.Sized<Event>>>, j: nat, n: nat): (r: nat)
    requires j < |batches|
    ensures r < SequenceModulus
  {
    var events := if j + 1 < |batches| then |Batching.Flatten(batches[..j + 1])| + 1 else n;
    (start + events + j) % SequenceModulus
  }

  /** How an event's packet is built from a counter value (`create_packet`,
      as EventBuilderOf); None where it raises. */
  type EventBuilder = (Event, nat) -> Option<Packet>

  /** The packets `create_packet` builds: the JSON frame of the event, for
      an event that gets past its first lines. */
  function EventBuilderOf(dumps: JsonSerializer, enabled: bool, compress: Compressor, parseInt: IntParser)
    : EventBuilder
  {
    (event: Event, n: nat) =>
      if n < SequenceModulus && Creatable(event, parseInt) then JsonFrame(n, dumps(JObject(event)), enabled, compress)
      else None
  }

  /** How a batch packet is built from a counter value and the events of
      the batch (`create_batch_packet`, as BatchFrame); None where it raises. */
  type BatchBuilder = (nat, seq<Event>) -> Option<Packet>

  /** What holds once `batch_events` has handled the events that `entries`
      records, each with the length of its packet, and stands in loop state
      g: g is the grouping of the entries, so the closed batches and the
      open one hold the entries in order, with no closed batch while the
      open one is empty; each entry carries the length of its event's
      packet; closed batch j was sent behind counter value sequences[j]; and
      its packet is the one built from it. */
  ghost predicate Batched(events: seq<Event>, create: EventBuilder, build: BatchBuilder, s0: nat, maxSize: int,
                          entries: seq<Batching.Sized<Event>>, g: Batching.Grouping<Event>,
                          sent: seq<Packet>, sequences: seq<nat>)
  {
    && g == Batching.Group(entries, maxSize)
    && EntriesFor(events, create, s0, maxSize, entries)
    && Batching.Flatten(g.done) + g.current == entries
    && (g.current == [] ==> g.done == [])
    && Numbered(s0, g.done, sequences)
    && Built(build, g.done, sent, sequences)
  }

  /** The counter value the packet of event k is built behind, from
      starting value s0: one number for each earlier event's packet and one
      for each batch sent before it, which are the batches the first k
      entries close. */
  ghost function EventCounter(s0: nat, entries: seq<Batching.Sized<Event>>, k: nat, maxSize: int): (r: nat)
    requires k <= |entries|
    ensures r < SequenceModulus
  {
    (s0 + k + |Batching.Group(entries[..k], maxSize).done|) % SequenceModulus
  }

  /** The entries are the first events, each with the length of the packet
      `create_packet` built for it behind the counter value it had reached.
      (Held as one fact, EntriesForFacts, for the reason given at Progress.) */
  ghost predicate EntriesFor(events: seq<Event>, create: EventBuilder, s0: nat, maxSize: int,
                             entries: seq<Batching.Sized<Event>>)
  {
    // Comparing with true keeps Dafny from splitting the body into one goal per conjunct wherever
    // the predicate is to be shown; a proof that needs a conjunct asserts the Facts predicate.
    EntriesForFacts(events, create, s0, maxSize, entries) == true
  }

  ghost predicate EntriesForFacts(events: seq<Event>, create: EventBuilder, s0: nat, maxSize: int,
                                  entries: seq<Batching.Sized<Event>>)
  {
    |entries| <= |events| && forall k :: 0 <= k < |entries| ==> EntryAt(events, create, s0, maxSize, entries, k)
  }

  ghost predicate EntryAt(events: seq<Event>, create: EventBuilder, s0: nat, maxSize: int,
                          entries: seq<Batching.Sized<Event>>, k: nat)
    requires k < |entries| <= |events|
  {
    EntryFor(events[k], entries[k], create, EventCounter(s0, entries, k, maxSize))
  }

  /** e records the event with the length of the packet built for it behind
      the counter value given. */
  predicate EntryFor(event: Event, e: Batching.Sized<Event>, create: EventBuilder, counter: nat)
  {
    e.item == event && create(event, counter).Some? && e.size == |create(event, counter).value|
  }

  /** The entries are determined by the events: two records of the same
      events, each entry's length taken from its own packet, are equal. So
      the sizes the batches are formed from are the packet lengths, and
      nothing else. */
  lemma EntriesDetermined(events: seq<Event>, create: EventBuilder, s0: nat, maxSize: int,
                          a: seq<Batching.Sized<Event>>, b: seq<Batching.Sized<Event>>)
    requires EntriesFor(events, create, s0, maxSize, a) && EntriesFor(events, create, s0, maxSize, b)
    requires |a| == |b|
    ensures a == b
  {
    EntriesAgree(events, create, s0, maxSize, a, b, |a|);
    assert a[..|a|] == a && b[..|b|] == b;
  }

  lemma {:induction false} EntriesAgree(events: seq<Event>, create: EventBuilder, s0: nat, maxSize: int,
                                        a: seq<Batching.Sized<Event>>, b: seq<Batching.Sized<Event>>, n: nat)
    requires EntriesFor(events, create, s0, maxSize, a) && EntriesFor(events, create, s0, maxSize, b)
    requires n <= |a| == |b|
    ensures a[..n] == b[..n]
  {
    if n > 0 {
      EntriesAgree(events, create, s0, maxSize, a, b, n - 1);
      assert EntryAt(events, create, s0, maxSize, a, n - 1);
      assert EntryAt(events, create, s0, maxSize, b, n - 1);
      assert EventCounter(s0, a, n - 1, maxSize) == EventCounter(s0, b, n - 1, maxSize);
      assert a[n - 1] == b[n - 1];
      assert a[..n] == a[..n - 1] + [a[n - 1]] && b[..n] == b[..n - 1] + [b[n - 1]];
    }
  }

  /** The counter values the closed batches were sent behind, from
      starting value s0: each batch right after the packet of the event that
      follows it, every event up to that one and every earlier batch having
      taken one value. */
  ghost function Numbers(s0: nat, done: seq<seq<Batching.Sized<Event>>>): (r: seq<nat>)
    ensures |r| == |done|
  {
    if done == [] then []
    else Numbers(s0, done[..|done| - 1]) + [(s0 + |Batching.Flatten(done)| + |done|) % SequenceModulus]
  }

  /** Closed batch j was sent behind the counter value s0 plus the number of
      events up to the one after it plus the j batches before it. */
  lemma {:induction false} NumbersAt(s0: nat, done: seq<seq<Batching.Sized<Event>>>, j: nat)
    requires j < |done|
    ensures Numbers(s0, done)[j] == (s0 + |Batching.Flatten(done[..j + 1])| + 1 + j) % SequenceModulus
  {
    var n := |done|;
    if j == n - 1 {
      assert done[..j + 1] == done;
    } else {
      NumbersAt(s0, done[..n - 1], j);
      assert done[..n - 1][..j + 1] == done[..j + 1];
    }
  }

  ghost predicate Numbered(s0: nat, done: seq<seq<Batching.Sized<Event>>>, sequences: seq<nat>)
  {
    sequences == Numbers(s0, done)
  }

  /** The packets sent are the ones built from the closed batches. */
  ghost predicate Built(build: BatchBuilder, done: seq<seq<Batching.Sized<Event>>>, sent: seq<Packet>,
                        sequences: seq<nat>)
  {
    |sent| == |done| && |sequences| == |done|
    && forall j :: 0 <= j < |done| ==> BuiltAt(build, done, sent, sequences, j)
  }

  ghost predicate BuiltAt(build: BatchBuilder, done: seq<seq<Batching.Sized<Event>>>, sent: seq<Packet>,
                          sequences: seq<nat>, j: nat)
    requires j < |done| == |sent| == |sequences|
  {
    build(sequences[j], Batching.Items(done[j])) == Some(sent[j])
  }

  lemma BatchedStart(events: seq<Event>, create: EventBuilder, build: BatchBuilder, s0: nat, maxSize: int)
    ensures Batched(events, create, build, s0, maxSize, [], Batching.Grouping([], [], 0), [], [])
  {
    assert Batching.Flatten<Batching.Sized<Event>>([]) == [];
  }

  /** An entry for the next event, its packet built behind the counter
      value reached, extends the record. */
  lemma EntriesSnoc(events: seq<Event>, create: EventBuilder, s0: nat, maxSize: int,
                    entries: seq<Batching.Sized<Event>>, e: Batching.Sized<Event>)
    requires EntriesFor(events, create, s0, maxSize, entries)
    requires |entries| < |events|
    requires EntryFor(events[|entries|], e, create,
                      (s0 + |entries| + |Batching.Group(entries, maxSize).done|) % SequenceModulus)
    ensures EntriesFor(events, create, s0, maxSize, entries + [e])
  {
    var all := entries + [e];
    forall k | 0 <= k < |all|
      ensures EntryAt(events, create, s0, maxSize, all, k)
    {
      if k < |entries| {
        assert EntryAt(events, create, s0, maxSize, entries, k);
      }
      EntryAtSnoc(events, create, s0, maxSize, entries, e, k);
    }
  }

  lemma EntryAtSnoc(events: seq<Event>, create: EventBuilder, s0: nat, maxSize: int,
                    entries: seq<Batching.Sized<Event>>, e: Batching.Sized<Event>, k: nat)
    requires k <= |entries| < |events|
    requires k < |entries| ==> EntryAt(events, create, s0, maxSize, entries, k)
    requires k == |entries| ==>
               EntryFor(events[k], e, create,
                        (s0 + |entries| + |Batching.Group(entries, maxSize).done|) % SequenceModulus)
    ensures EntryAt(events, create, s0, maxSize, entries + [e], k)
  {
    EventCounterSnoc(s0, entries, e, k, maxSize);
    if k < |entries| {
      assert (entries + [e])[k] == entries[k];
    } else {
      assert (entries + [e])[k] == e;
    }
  }

  /** A further entry does not move the counter values of the earlier
      ones; its own is the one after the earlier events and batches. */
  lemma EventCounterSnoc(s0: nat, entries: seq<Batching.Sized<Event>>, e: Batching.Sized<Event>, k: nat,
                         maxSize: int)
    requires k <= |entries|
    ensures EventCounter(s0, entries + [e], k, maxSize) == EventCounter(s0, entries, k, maxSize)
    ensures k == |entries| ==>
              EventCounter(s0, entries, k, maxSize)
              == (s0 + k + |Batching.Group(entries, maxSize).done|) % SequenceModulus
  {
    assert (entries + [e])[..k] == entries[..k];
    assert entries[..|entries|] == entries;
  }

  lemma PrefixOfSnoc<X>(xs: seq<X>, x: X, j: nat)
    requires j < |xs|
    ensures (xs + [x])[..j + 1] == xs[..j + 1]
  {
  }

  /** Closing a batch numbers it after n events and the earlier batches. */
  lemma NumberedSnoc(s0: nat, done: seq<seq<Batching.Sized<Event>>>, current: seq<Batching.Sized<Event>>,
                     sequences: seq<nat>, n: nat)
    requires Numbered(s0, done, sequences)
    requires |Batching.Flatten(done + [current])| == n
    ensures Numbered(s0, done + [current], sequences + [(s0 + n + |done| + 1) % SequenceModulus])
  {
    assert (done + [current])[..|done|] == done;
  }

  lemma BuiltSnoc(build: BatchBuilder, done: seq<seq<Batching.Sized<Event>>>, current: seq<Batching.Sized<Event>>,
                  sent: seq<Packet>, sequences: seq<nat>, sequence: nat, batch: Packet)
    requires Built(build, done, sent, sequences)
    requires build(sequence, Batching.Items(current)) == Some(batch)
    ensures Built(build, done + [current], sent + [batch], sequences + [sequence])
  {
    var done', sent', sequences' := done + [current], sent + [batch], sequences + [sequence];
    forall j | 0 <= j < |done'|
      ensures BuiltAt(build, done', sent', sequences', j)
    {
      if j < |done| {
        assert BuiltAt(build, done, sent, sequences, j);
        assert sequences'[j] == sequences[j] && done'[j] == done[j] && sent'[j] == sent[j];
      }
    }
  }

  /** The event fits (or the open batch is empty): it joins the open batch. */
  lemma BatchedExtend(events: seq<Event>, create: EventBuilder, build: BatchBuilder, s0: nat, maxSize: int,
                      entries: seq<Batching.Sized<Event>>, g: Batching.Grouping<Event>,
                      sent: seq<Packet>, sequences: seq<nat>, e: Batching.Sized<Event>)
    requires Batched(events, create, build, s0, maxSize, entries, g, sent, sequences)
    requires |entries| < |events|
    requires EntryFor(events[|entries|], e, create, (s0 + |entries| + |sent|) % SequenceModulus)
    requires !(g.currentSize + e.size > maxSize && g.current != [])
    ensures Batched(events, create, build, s0, maxSize, entries + [e],
                    Batching.Grouping(g.done, g.current + [e], g.currentSize + e.size), sent, sequences)
  {
    EntriesSnoc(events, create, s0, maxSize, entries, e);
    Batching.GroupSnoc(entries, e, maxSize);
    assert Batching.Flatten(g.done) + (g.current + [e]) == entries + [e];
  }

  /** The event does not fit: the open batch is sent behind counter value
      s0 + |entries| + |sent| + 1 (the event's own packet took the one
      before), and the event opens the next batch. */
  lemma BatchedClose(events: seq<Event>, create: EventBuilder, build: BatchBuilder, s0: nat, maxSize: int,
                     entries: seq<Batching.Sized<Event>>, g: Batching.Grouping<Event>,
                     sent: seq<Packet>, sequences: seq<nat>, e: Batching.Sized<Event>, batch: Packet)
    requires Batched(events, create, build, s0, maxSize, entries, g, sent, sequences)
    requires |entries| < |events|
    requires EntryFor(events[|entries|], e, create, (s0 + |entries| + |sent|) % SequenceModulus)
    requires g.currentSize + e.size > maxSize && g.current != []
    requires build((s0 + |entries| + |sent| + 1) % SequenceModulus, Batching.Items(g.current)) == Some(batch)
    ensures Batched(events, create, build, s0, maxSize, entries + [e],
                    Batching.Grouping(g.done + [g.current], [e], e.size),
                    sent + [batch], sequences + [(s0 + |entries| + |sent| + 1) % SequenceModulus])
  {
    EntriesSnoc(events, create, s0, maxSize, entries, e);
    Batching.GroupSnoc(entries, e, maxSize);
    Batching.FlattenSnoc(g.done, g.current);
    NumberedSnoc(s0, g.done, g.current, sequences, |entries|);
    BuiltSnoc(build, g.done, g.current, sent, sequences, (s0 + |entries| + |sent| + 1) % SequenceModulus, batch);
    assert Batching.Flatten(g.done + [g.current]) + [e] == entries + [e];
  }

  /** After the last event: the open batch, if any, is sent behind counter
      value s0 + |events| + |sent|, and the packets sent are the batches. */
  lemma BatchedFinish(events: seq<Event>, maxSize: int, create: EventBuilder, build: BatchBuilder,
                      s0: nat, entries: seq<Batching.Sized<Event>>, sent: seq<Packet>, sequences: seq<nat>,
                      last: Option<Packet>)
    requires Batched(events, create, build, s0, maxSize, entries, Batching.Group(entries, maxSize), sent, sequences)
    requires |entries| == |events|
    requires Batching.Group(entries, maxSize).current != [] <==> last.Some?
    requires last.Some? ==>
               build((s0 + |events| + |sent|) % SequenceModulus, Batching.Items(Batching.Group(entries, maxSize).current)) == last
    ensures var packets := if last.Some? then sent + [last.value] else sent;
            var batches := Batching.Batches(entries, maxSize);
            && |packets| == |batches|
            && forall j :: 0 <= j < |batches| ==>
                 build(EmittedAt(s0, batches, j, |events|), Batching.Items(batches[j])) == Some(packets[j])
  {
    var g := Batching.Group(entries, maxSize);
    var batches := Batching.Batches(entries, maxSize);
    if last.Some? {
      var packets := sent + [last.value];
      assert batches == g.done + [g.current];
      forall j | 0 <= j < |batches|
        ensures build(EmittedAt(s0, batches, j, |events|), Batching.Items(batches[j])) == Some(packets[j])
      {
        if j < |sent| {
          EmittedClosed(s0, g.done, g.current, j, |events|);
          assert BuiltAt(build, g.done, sent, sequences, j);
          assert batches[j] == g.done[j] && packets[j] == sent[j];
        }
      }
    }
  }

  /** A closed batch that is not the last one is numbered as the loop
      numbered it. */
  lemma EmittedClosed(s0: nat, done: seq<seq<Batching.Sized<Event>>>, current: seq<Batching.Sized<Event>>, j: nat, n: nat)
    requires j < |done|
    ensures EmittedAt(s0, done + [current], j, n) == Numbers(s0, done)[j]
  {
    PrefixOfSnoc(done, current, j);
    NumbersAt(s0, done, j);
  }

  /** The batch packets `create_batch_packet` builds from a serialiser. */
  function BatchBuilderOf(dumps: JsonSerializer): BatchBuilder
  {
    (n: nat, batch: seq<Event>) => if n < SequenceModulus then BatchFrame(n, dumps(EventList(batch))) else None
  }

  lemma BuildsBatchFrame(dumps: JsonSerializer, n: nat, batch: seq<Event>, packet: Packet)
    requires n < SequenceModulus && BatchFrame(n, dumps(EventList(batch))) == Some(packet)
    ensures BatchBuilderOf(dumps)(n, batch) == Some(packet)
  {
  }

  /** The packets BatchedFinish relates to the builder are the batch frames
      of the batches. */
  lemma BatchedResult(events: seq<Event>, maxSize: int, dumps: JsonSerializer, s0: nat,
                      entries: seq<Batching.Sized<Event>>, packets: seq<Packet>)
    requires var batches := Batching.Batches(entries, maxSize);
             && |packets| == |batches|
             && forall j :: 0 <= j < |batches| ==>
                  BatchBuilderOf(dumps)(EmittedAt(s0, batches, j, |events|), Batching.Items(batches[j])) == Some(packets[j])
    ensures Emitted(events, maxSize, dumps, s0, entries, packets)
  {
    var batches := Batching.Batches(entries, maxSize);
    forall j | 0 <= j < |batches|
      ensures EmittedPacket(|events|, dumps, s0, batches, packets, j)
    {
      assert BatchBuilderOf(dumps)(EmittedAt(s0, batches, j, |events|), Batching.Items(batches[j])) == Some(packets[j]);
    }
  }

  /** The state of `batch_events` between two events: the batch packets
      sent so far, the open batch and the sum of its packet lengths. */
  datatype Batcher = Batcher(sent: seq<Packet>, batch: seq<Event>, size: int)

  /** The loop invariant of `batch_events`, ProgressFacts, held as one
      fact: comparing it with true keeps the verifier from checking it
      conjunct by conjunct wherever it is to be shown. */
  ghost predicate Progress(events: seq<Event>, create: EventBuilder, build: BatchBuilder, s0: nat, maxSize: int,
                           st: Batcher, entries: seq<Batching.Sized<Event>>, g: Batching.Grouping<Event>,
                           sequences: seq<nat>, start: nat, counter: nat)
  {
    // Comparing with true keeps Dafny from splitting the body into one goal per conjunct wherever
    // the predicate is to be shown; a proof that needs a conjunct asserts the Facts predicate.
    ProgressFacts(events, create, build, s0, maxSize, st, entries, g, sequences, start, counter) == true
  }

  /** Batched for loop state g, with the loop state st holding the open
      batch of g, which is the run of events from start, and the counter one
      number on for every event and every batch packet. */
  ghost predicate ProgressFacts(events: seq<Event>, create: EventBuilder, build: BatchBuilder, s0: nat,
                                maxSize: int, st: Batcher, entries: seq<Batching.Sized<Event>>,
                                g: Batching.Grouping<Event>, sequences: seq<nat>, start: nat, counter: nat)
  {
    && Batched(events, create, build, s0, maxSize, entries, g, st.sent, sequences)
    && Open(st, g)
    && Run(events, st.batch, start, |entries|)
    && counter == (s0 + |entries| + |st.sent|) % SequenceModulus
  }

  /** The loop state holds the open batch of grouping g and its running size. */
  ghost predicate Open(st: Batcher, g: Batching.Grouping<Event>)
  {
    st.batch == Batching.Items(g.current) && st.size == g.currentSize
  }

  /** The batch is the run of events from start up to n. */
  ghost predicate Run(events: seq<Event>, batch: seq<Event>, start: nat, n: nat)
  {
    start <= n <= |events| && batch == events[start..n]
  }

  lemma RunSnoc(events: seq<Event>, batch: seq<Event>, start: nat, n: nat, n': nat)
    requires Run(events, batch, start, n) && n < |events| && n' == n + 1
    ensures Run(events, batch + [events[n]], start, n')
  {
    assert events[start..n + 1] == events[start..n] + [events[n]];
  }

  lemma RunOne(events: seq<Event>, n: nat, n': nat)
    requires n < |events| && n' == n + 1
    ensures Run(events, [events[n]], n, n')
  {
  }

  lemma ProgressStart(events: seq<Event>, create: EventBuilder, build: BatchBuilder, s0: nat, maxSize: int)
    ensures Progress(events, create, build, s0, maxSize, Batcher([], [], 0), [], Batching.Grouping([], [], 0), [],
                     0, s0 % SequenceModulus)
  {
    BatchedStart(events, create, build, s0, maxSize);
  }

  /** The next event does not fit: the open batch, sent behind the counter
      value after the event's own packet, closes, and the event opens the
      next batch. */
  lemma ProgressClose(events: seq<Event>, create: EventBuilder, build: BatchBuilder, s0: nat, maxSize: int,
                      st: Batcher, entries: seq<Batching.Sized<Event>>, g: Batching.Grouping<Event>,
                      sequences: seq<nat>, start: nat, counter: nat, e: Batching.Sized<Event>, batch: Packet)
    requires Progress(events, create, build, s0, maxSize, st, entries, g, sequences, start, counter)
    requires |entries| < |events| && EntryFor(events[|entries|], e, create, counter)
    requires g.currentSize + e.size > maxSize && g.current != []
    requires build((s0 + |entries| + |st.sent| + 1) % SequenceModulus, st.batch) == Some(batch)
    ensures Progress(events, create, build, s0, maxSize, Batcher(st.sent + [batch], [e.item], e.size),
                     entries + [e], Batching.Grouping(g.done + [g.current], [e], e.size),
                     sequences + [(s0 + |entries| + |st.sent| + 1) % SequenceModulus], |entries|,
                     (s0 + |entries| + 1 + |st.sent + [batch]|) % SequenceModulus)
  {
    BatchedClose(events, create, build, s0, maxSize, entries, g, st.sent, sequences, e, batch);
    assert Batching.Items([e]) == [e.item] by { Batching.ItemsSnoc([], e); }
    RunOne(events, |entries|, |entries + [e]|);
    assert s0 + |entries + [e]| + |st.sent + [batch]| == s0 + |entries| + 1 + |st.sent + [batch]|;
  }

  /** The next event joins the open batch. */
  lemma ProgressExtend(events: seq<Event>, create: EventBuilder, build: BatchBuilder, s0: nat, maxSize: int,
                       st: Batcher, entries: seq<Batching.Sized<Event>>, g: Batching.Grouping<Event>,
                       sequences: seq<nat>, start: nat, counter: nat, e: Batching.Sized<Event>)
    requires Progress(events, create, build, s0, maxSize, st, entries, g, sequences, start, counter)
    requires |entries| < |events| && EntryFor(events[|entries|], e, create, counter)
    requires !(g.currentSize + e.size > maxSize && g.current != [])
    ensures Progress(events, create, build, s0, maxSize, Batcher(st.sent, st.batch + [e.item], st.size + e.size),
                     entries + [e], Batching.Grouping(g.done, g.current + [e], g.currentSize + e.size), sequences,
                     start, (s0 + |entries| + 1 + |st.sent|) % SequenceModulus)
  {
    BatchedExtend(events, create, build, s0, maxSize, entries, g, st.sent, sequences, e);
    Batching.ItemsSnoc(g.current, e);
    RunSnoc(events, st.batch, start, |entries|, |entries + [e]|);
    assert s0 + |entries + [e]| + |st.sent| == s0 + |entries| + 1 + |st.sent|;
  }

  /** One round of the loop of `batch_events` on the loop state, for an
      event whose packet has the given length: when the length would take
      the open batch past maxSize and the batch is not empty, the batch is
      sent behind the counter value reached (None when no packet can be
      built) and the event opens the next batch; otherwise the event joins
      the open batch. */
  function Admitted(st: Batcher, e: Batching.Sized<Event>, maxSize: int, build: BatchBuilder, counter: nat)
    : Option<Batcher>
  {
    if st.size + e.size > maxSize && st.batch != [] then
      match build(counter, st.batch)
      case None => None
      case Some(packet) => Some(Batcher(st.sent + [packet], [e.item], e.size))
    else
      Some(Batcher(st.sent, st.batch + [e.item], st.size + e.size))
  }

  /** The end of `batch_events`: the open batch, if any, is sent behind the
      counter value reached; None when no packet can be built. */
  function Flushed(st: Batcher, build: BatchBuilder, counter: nat): Option<seq<Packet>>
  {
    if st.batch == [] then Some(st.sent)
    else
      match build(counter, st.batch)
      case None => None
      case Some(packet) => Some(st.sent + [packet])
  }

  /** A round of the loop keeps Progress, the loop state moving on as
      Batching.Admit says; it returns the counter values of the closed
      batches and the start of the open batch afterwards. */
  lemma ProgressAdmit(events: seq<Event>, maxSize: int, create: EventBuilder, build: BatchBuilder,
                      s0: nat, st: Batcher, entries: seq<Batching.Sized<Event>>, g: Batching.Grouping<Event>,
                      sequences: seq<nat>, start: nat, counter: nat, e: Batching.Sized<Event>, st': Batcher,
                      after: nat)
    returns (sequences': seq<nat>, start': nat)
    requires Progress(events, create, build, s0, maxSize, st, entries, g, sequences, start, counter)
    requires |entries| < |events| && EntryFor(events[|entries|], e, create, counter)
    requires Admitted(st, e, maxSize, build, (s0 + |entries| + |st.sent| + 1) % SequenceModulus) == Some(st')
    requires after == (s0 + |entries| + 1 + |st'.sent|) % SequenceModulus
    ensures Progress(events, create, build, s0, maxSize, st', entries + [e], Batching.Admit(g, e, maxSize),
                     sequences', start', after)
  {
    ProgressOpen(events, create, build, s0, maxSize, st, entries, g, sequences, start, counter);
    if st.size + e.size > maxSize && st.batch != [] {
      var batch := st'.sent[|st.sent|];
      assert st' == Batcher(st.sent + [batch], [e.item], e.size);
      ProgressClose(events, create, build, s0, maxSize, st, entries, g, sequences, start, counter, e, batch);
      assert Batching.Admit(g, e, maxSize) == Batching.Grouping(g.done + [g.current], [e], e.size);
      sequences', start' := sequences + [(s0 + |entries| + |st.sent| + 1) % SequenceModulus], |entries|;
    } else {
      ProgressExtend(events, create, build, s0, maxSize, st, entries, g, sequences, start, counter, e);
      assert Batching.Admit(g, e, maxSize) == Batching.Grouping(g.done, g.current + [e], g.currentSize + e.size);
      sequences', start' := sequences, start;
    }
  }

  /** A failed round: the event cannot be sent, or it does not fit and the
      open batch, which is the run of events from start, cannot be sent; so
      `batch_events` raises in this round. */
  lemma ProgressFails(events: seq<Event>, dumps: JsonSerializer, parseInt: IntParser, create: EventBuilder,
                      build: BatchBuilder, s0: nat, maxSize: int, st: Batcher, entries: seq<Batching.Sized<Event>>,
                      g: Batching.Grouping<Event>, sequences: seq<nat>, start: nat, counter: nat,
                      e: Batching.Sized<Event>)
    requires Progress(events, create, build, s0, maxSize, st, entries, g, sequences, start, counter)
    requires |entries| < |events|
    requires || !Creatable(events[|entries|], parseInt) || |dumps(JObject(events[|entries|]))| >= 0x1_0000
             || (&& EntryFor(events[|entries|], e, create, counter) && st.batch != []
                 && st.size + e.size > maxSize && |dumps(EventList(st.batch))| >= 0x1_0000)
    ensures start <= |entries|
    ensures || !Creatable(events[|entries|], parseInt) || |dumps(JObject(events[|entries|]))| >= 0x1_0000
            || (start < |entries| && |dumps(EventList(events[start..|entries|]))| >= 0x1_0000)
    ensures RaisesAt(events, dumps, parseInt, create, s0, maxSize, entries)
  {
    assert Run(events, st.batch, start, |entries|);
    if st.batch != [] && |dumps(EventList(st.batch))| >= 0x1_0000 {
      ProgressStuck(events, dumps, create, build, s0, maxSize, st, entries, g, sequences, start, counter);
    }
    ProgressRaises(events, dumps, parseInt, create, build, s0, maxSize, st, entries, g, sequences, start, counter, e);
  }

  /** `batch_events` raises in round |entries|, entries recording the
      events before it, the loop state being their greedy grouping: in a
      round, `create_packet` raises on the event, or its packet does not fit
      and `struct.pack` raises on the open batch it closes; after the last
      event, `struct.pack` raises on the open batch being flushed. */
  ghost predicate RaisesAt(events: seq<Event>, dumps: JsonSerializer, parseInt: IntParser, create: EventBuilder,
                           s0: nat, maxSize: int, entries: seq<Batching.Sized<Event>>)
  {
    && |entries| <= |events|
    && EntriesFor(events, create, s0, maxSize, entries)
    && var g := Batching.Group(entries, maxSize);
       var open := Batching.Items(g.current);
       if |entries| == |events| then g.current != [] && |dumps(EventList(open))| >= 0x1_0000
       else
         var event := events[|entries|];
         var packet := create(event, (s0 + |entries| + |g.done|) % SequenceModulus);
         || !Creatable(event, parseInt) || |dumps(JObject(event))| >= 0x1_0000
         || (&& packet.Some? && g.current != [] && g.currentSize + |packet.value| > maxSize
             && |dumps(EventList(open))| >= 0x1_0000)
  }

  /** A failed round, stated on the loop state, is a round in which
      `batch_events` raises. */
  lemma ProgressRaises(events: seq<Event>, dumps: JsonSerializer, parseInt: IntParser, create: EventBuilder,
                       build: BatchBuilder, s0: nat, maxSize: int, st: Batcher, entries: seq<Batching.Sized<Event>>,
                       g: Batching.Grouping<Event>, sequences: seq<nat>, start: nat, counter: nat,
                       e: Batching.Sized<Event>)
    requires Progress(events, create, build, s0, maxSize, st, entries, g, sequences, start, counter)
    requires |entries| < |events|
    requires || !Creatable(events[|entries|], parseInt) || |dumps(JObject(events[|entries|]))| >= 0x1_0000
             || (&& EntryFor(events[|entries|], e, create, counter) && st.batch != []
                 && st.size + e.size > maxSize && |dumps(EventList(st.batch))| >= 0x1_0000)
    ensures RaisesAt(events, dumps, parseInt, create, s0, maxSize, entries)
  {
    assert Batched(events, create, build, s0, maxSize, entries, g, st.sent, sequences);
    assert Open(st, g);
    assert |st.sent| == |g.done| by {
      assert Built(build, g.done, st.sent, sequences);
    }
  }

  /** A failed flush, stated on the loop state, is `batch_events` raising
      after the last event. */
  lemma ProgressFlushRaises(events: seq<Event>, dumps: JsonSerializer, parseInt: IntParser, create: EventBuilder,
                            build: BatchBuilder, s0: nat, maxSize: int, st: Batcher,
                            entries: seq<Batching.Sized<Event>>, g: Batching.Grouping<Event>, sequences: seq<nat>,
                            start: nat, counter: nat)
    requires Progress(events, create, build, s0, maxSize, st, entries, g, sequences, start, counter)
    requires |entries| == |events|
    requires st.batch != [] && |dumps(EventList(st.batch))| >= 0x1_0000
    ensures RaisesAt(events, dumps, parseInt, create, s0, maxSize, entries)
  {
    assert Batched(events, create, build, s0, maxSize, entries, g, st.sent, sequences);
    assert Open(st, g);
  }

  /** After the last event, with the open batch sent (when there is one)
      behind the counter value reached, the packets are the batch frames of
      the batches. */
  lemma ProgressFinish(events: seq<Event>, maxSize: int, dumps: JsonSerializer, create: EventBuilder,
                       build: BatchBuilder, s0: nat, st: Batcher, entries: seq<Batching.Sized<Event>>,
                       sequences: seq<nat>, start: nat, counter: nat, packets: seq<Packet>, after: nat)
    requires Progress(events, create, build, s0, maxSize, st, entries, Batching.Group(entries, maxSize), sequences,
                      start, counter)
    requires |entries| == |events| && build == BatchBuilderOf(dumps)
    requires Flushed(st, build, counter) == Some(packets)
    requires after == if st.batch != [] then (counter + 1) % SequenceModulus else counter
    ensures EntriesFor(events, create, s0, maxSize, entries)
    ensures Emitted(events, maxSize, dumps, s0, entries, packets)
    ensures after == (s0 + |events| + |packets|) % SequenceModulus
  {
    ProgressEntries(events, create, build, s0, maxSize, st, entries, Batching.Group(entries, maxSize), sequences,
                    start, counter);
    FlushedCounter(s0 + |events|, st, build, counter, packets, after);
    ProgressEmitted(events, maxSize, dumps, create, build, s0, st, entries, sequences, start, counter, packets);
  }

  lemma ProgressEmitted(events: seq<Event>, maxSize: int, dumps: JsonSerializer, create: EventBuilder,
                        build: BatchBuilder, s0: nat, st: Batcher, entries: seq<Batching.Sized<Event>>,
                        sequences: seq<nat>, start: nat, counter: nat, packets: seq<Packet>)
    requires Progress(events, create, build, s0, maxSize, st, entries, Batching.Group(entries, maxSize), sequences,
                      start, counter)
    requires |entries| == |events| && build == BatchBuilderOf(dumps)
    requires Flushed(st, build, counter) == Some(packets)
    ensures Emitted(events, maxSize, dumps, s0, entries, packets)
  {
    var last := if st.batch == [] then None else build(counter, st.batch);
    BatchedFinish(events, maxSize, create, build, s0, entries, st.sent, sequences, last);
    BatchedResult(events, maxSize, dumps, s0, entries, packets);
  }

  /** Flushing the open batch takes one more counter value for its packet. */
  lemma FlushedCounter(n: nat, st: Batcher, build: BatchBuilder, counter: nat, packets: seq<Packet>, after: nat)
    requires counter == (n + |st.sent|) % SequenceModulus
    requires Flushed(st, build, counter) == Some(packets)
    requires after == if st.batch != [] then (counter + 1) % SequenceModulus else counter
    ensures after == (n + |packets|) % SequenceModulus
  {
    if st.batch != [] {
      assert |packets| == |st.sent| + 1;
      Advance(n + |st.sent|, counter, after);
    }
  }

  /** The loop state holds the open batch, empty exactly when it is. */
  lemma ProgressOpen(events: seq<Event>, create: EventBuilder, build: BatchBuilder, s0: nat, maxSize: int,
                     st: Batcher, entries: seq<Batching.Sized<Event>>, g: Batching.Grouping<Event>,
                     sequences: seq<nat>, start: nat, counter: nat)
    requires Progress(events, create, build, s0, maxSize, st, entries, g, sequences, start, counter)
    ensures st.size == g.currentSize && (st.batch != [] <==> g.current != [])
  {
    assert Open(st, g);
  }

  lemma ProgressEntries(events: seq<Event>, create: EventBuilder, build: BatchBuilder, s0: nat, maxSize: int,
                        st: Batcher, entries: seq<Batching.Sized<Event>>, g: Batching.Grouping<Event>,
                        sequences: seq<nat>, start: nat, counter: nat)
    requires Progress(events, create, build, s0, maxSize, st, entries, g, sequences, start, counter)
    ensures EntriesFor(events, create, s0, maxSize, entries)
    ensures counter == (s0 + |entries| + |st.sent|) % SequenceModulus
  {
    assert Batched(events, create, build, s0, maxSize, entries, g, st.sent, sequences);
  }

  /** An open batch whose events do not serialise to fewer than 65536
      bytes is a run of consecutive events that do not either. */
  lemma ProgressStuck(events: seq<Event>, dumps: JsonSerializer, create: EventBuilder, build: BatchBuilder, s0: nat,
                      maxSize: int, st: Batcher, entries: seq<Batching.Sized<Event>>, g: Batching.Grouping<Event>,
                      sequences: seq<nat>, start: nat, counter: nat)
    requires Progress(events, create, build, s0, maxSize, st, entries, g, sequences, start, counter)
    requires st.batch != [] && |dumps(EventList(st.batch))| >= 0x1_0000
    ensures 0 <= start < |entries| && |dumps(EventList(events[start..|entries|]))| >= 0x1_0000
  {
  }

  /** The packets `batch_events` returns for the events recorded in entries,
      starting from counter value s0: one per batch Batching.Batches forms,
      each the batch frame of its events behind the counter value EmittedAt
      gives. */
  ghost predicate Emitted(events: seq<Event>, maxSize: int, dumps: JsonSerializer, s0: nat,
                          entries: seq<Batching.Sized<Event>>, packets: seq<Packet>)
  {
    var batches := Batching.Batches(entries, maxSize);
    && |packets| == |batches|
    && forall j :: 0 <= j < |batches| ==> EmittedPacket(|events|, dumps, s0, batches, packets, j)
  }

  /** Packet j is the batch frame of batch j behind counter value EmittedAt. */
  ghost predicate EmittedPacket(n: nat, dumps: JsonSerializer, s0: nat, batches: seq<seq<Batching.Sized<Event>>>,
                                packets: seq<Packet>, j: nat)
    requires j < |batches| == |packets|
  {
    BatchFrame(EmittedAt(s0, batches, j, n), dumps(EventList(Batching.Items(batches[j])))) == Some(packets[j])
  }
}
