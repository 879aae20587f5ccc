// The packet counter of `ProtocolHandler` and the methods that build
// packets with it.

module ProtocolHandling {
  import opened Wrappers
  import opened Bytes
  import opened Checksum
  import opened JsonValues
  import opened ProtocolFrames
  import opened Protocol
  import Batching

  class ProtocolHandler {
    var packetSequence: nat
    var compressionEnabled: bool
    var maxPacketSize: nat

    ghost predicate Valid()
      reads this
    {
      packetSequence < SequenceModulus
    }

    constructor ()
      ensures Valid()
      ensures packetSequence == 0 && compressionEnabled && maxPacketSize == 1024
    {
      packetSequence := 0;
      compressionEnabled := true;
      maxPacketSize := 1024;
    }

    /** `calculate_checksum`: one XOR and eight shift/conditional-XOR steps
        per byte, starting from 0xFFFF. */
    method CalculateChecksum(data: seq<byte>) returns (crc: bv16)
      ensures crc == Crc16(data)
      ensures data == [] ==> crc == 0xFFFF
    {
      crc := 0xFFFF;
      var i := 0;
      while i < |data|
        invariant 0 <= i <= |data|
        invariant crc == Crc16(data[..i])
      {
        crc := ShiftEight(crc ^ (data[i] as bv16));
        Crc16Prefix(data, i);
        i := i + 1;
      }
      assert data[..|data|] == data;
    }

    /** The inner loop of `calculate_checksum`: eight times, shift the
        register right and XOR in 0xA001 when the bit shifted out was set. */
    method ShiftEight(mixed: bv16) returns (crc: bv16)
      ensures crc == Rounds(mixed, 8)
    {
      crc := mixed;
      var j := 0;
      while j < 8
        invariant 0 <= j <= 8
        invariant Rounds(crc, 8 - j) == Rounds(mixed, 8)
      {
        ghost var before := crc;
        if crc & 1 == 1 {
          crc := (crc >> 1) ^ 0xA001;
        } else {
          crc := crc >> 1;
        }
        assert crc == Round(before);
        RoundsSucc(before, 8 - j - 1);
        j := j + 1;
      }
    }

    /** `build_packet`: applies the compression rule, frames the result and
        advances the sequence counter by one, modulo 65536. */
    method BuildPacket(packetType: byte, payload: seq<byte>, compress: Compressor) returns (packet: Packet)
      requires Valid()
      modifies this`packetSequence
      ensures Valid()
      ensures var c := Compress(packetType, payload, old(compressionEnabled), compress);
              packet == Frame(c.0, c.1)
      ensures packetSequence == (old(packetSequence) + 1) % SequenceModulus
    {
      var (typeByte, body) := Compress(packetType, payload, compressionEnabled, compress);
      var checksum := CalculateChecksum(Header(typeByte) + body);
      FrameFromParts(typeByte, body, checksum);
      packet := Header(typeByte) + body + Le16(checksum);
      packetSequence := (packetSequence + 1) % SequenceModulus;
    }

    /** `create_json_packet`: the event serialised behind the current
        sequence number and its length, built with `build_packet`; None (and
        no change) when the serialised event does not fit a u16 length. */
    method CreateJsonPacket(event: Event, dumps: JsonSerializer, compress: Compressor) returns (packet: Option<Packet>)
      requires Valid()
      modifies this`packetSequence
      ensures Valid()
      ensures packet == JsonFrame(old(packetSequence), dumps(JObject(event)), compressionEnabled, compress)
      ensures packetSequence == if packet.Some? then (old(packetSequence) + 1) % SequenceModulus
                                else old(packetSequence)
    {
      var data := dumps(JObject(event));
      if |data| >= 0x1_0000 {
        return None;
      }
      var payload := JsonPayload(packetSequence, data);
      var built := BuildPacket(JsonType, payload, compress);
      packet := Some(built);
    }

    /** `create_packet`: an event whose timestamp `int()` rejects, or whose
        type is unhashable, raises (None, and no change); every other event
        takes the JSON fallback. parseInt is `int()` on strings. */
    method CreatePacket(event: Event, dumps: JsonSerializer, compress: Compressor, parseInt: IntParser)
      returns (packet: Option<Packet>)
      requires Valid()
      modifies this`packetSequence
      ensures Valid()
      ensures packet == if Creatable(event, parseInt)
                        then JsonFrame(old(packetSequence), dumps(JObject(event)), compressionEnabled, compress)
                        else None
      ensures packet.None? <==> !Creatable(event, parseInt) || |dumps(JObject(event))| >= 0x1_0000
      ensures packetSequence == if packet.Some? then (old(packetSequence) + 1) % SequenceModulus
                                else old(packetSequence)
    {
      var route := RouteOf(event, parseInt);
      RouteAlwaysJson(event, parseInt);
      if route == Raises {
        return None;
      }
      // route == JsonFallback: the typed encoders are never reached.
      packet := CreateJsonPacket(event, dumps, compress);
    }

    /** `create_heartbeat_packet` with the millisecond clock reading as a
        parameter: sequence and timestamp as `<HQ`, never compressed. */
    method CreateHeartbeatPacket(timestamp: nat, compress: Compressor) returns (packet: Packet)
      requires Valid() && timestamp < 0x1_0000_0000_0000_0000
      modifies this`packetSequence
      ensures Valid()
      ensures packet == Frame(HeartbeatType, HeartbeatPayload(old(packetSequence), timestamp))
      ensures packetSequence == (old(packetSequence) + 1) % SequenceModulus
    {
      var payload := HeartbeatPayload(packetSequence, timestamp);
      packet := BuildPacket(HeartbeatType, payload, compress);
    }

    /** `create_batch_packet`: the list of events serialised behind the
        current sequence number and its length, framed with type 0xFE and no
        compression; None (and no change) when the data does not fit a u16
        length. */
    method CreateBatchPacket(events: seq<Event>, dumps: JsonSerializer) returns (packet: Option<Packet>)
      requires Valid()
      modifies this`packetSequence
      ensures Valid()
      ensures packet == BatchFrame(old(packetSequence), dumps(EventList(events)))
      ensures packetSequence == if packet.Some? then (old(packetSequence) + 1) % SequenceModulus
                                else old(packetSequence)
    {
      var data := dumps(EventList(events));
      if |data| >= 0x1_0000 {
        return None;
      }
      var payload := JsonPayload(packetSequence, data);
      var checksum := CalculateChecksum(Header(BatchType) + payload);
      packet := Some(Header(BatchType) + payload + Le16(checksum));
      FrameFromParts(BatchType, payload, checksum);
      packetSequence := (packetSequence + 1) % SequenceModulus;
    }


    /** The first two steps of each round of `batch_events`: the event's
        packet from `create_packet`, and its length. */
    method EventPacketSize(event: Event, dumps: JsonSerializer, compress: Compressor, parseInt: IntParser,
                           ghost create: EventBuilder)
      returns (size: Option<nat>)
      requires Valid() && create == EventBuilderOf(dumps, compressionEnabled, compress, parseInt)
      modifies this`packetSequence
      ensures Valid()
      ensures size.None? <==> !Creatable(event, parseInt) || |dumps(JObject(event))| >= 0x1_0000
      ensures size.Some? ==>
                size.value == |JsonFrame(old(packetSequence), dumps(JObject(event)), compressionEnabled, compress).value|
      ensures size.Some? ==>
                EntryFor(event, Batching.Sized(event, size.value), create, old(packetSequence))
      ensures packetSequence == if size.Some? then (old(packetSequence) + 1) % SequenceModulus
                                else old(packetSequence)
    {
      var p := CreatePacket(event, dumps, compress, parseInt);
      if p.None? {
        return None;
      }
      size := Some(|p.value|);
    }

    /** `create_batch_packet` as `batch_events` uses it: the packet is the
        one the builder gives for the counter value it was sent behind. */
    method SendBatch(batch: seq<Event>, dumps: JsonSerializer, ghost build: BatchBuilder) returns (packet: Option<Packet>)
      requires Valid() && build == BatchBuilderOf(dumps)
      modifies this`packetSequence
      ensures Valid()
      ensures packet.None? <==> |dumps(EventList(batch))| >= 0x1_0000
      ensures packet.Some? ==> build(old(packetSequence), batch) == packet
      ensures packetSequence == if packet.Some? then (old(packetSequence) + 1) % SequenceModulus
                                else old(packetSequence)
    {
      ghost var before := packetSequence;
      packet := CreateBatchPacket(batch, dumps);
      if packet.Some? {
        BuildsBatchFrame(dumps, before, batch, packet.value);
      }
    }

    /** One round of the loop of `batch_events`: the event's packet from
        `create_packet` gives its length e.size, the length of the packet
        built behind the counter value reached; then the loop state moves
        on as Admitted says, the batch, when one is closed, being sent with
        `create_batch_packet` behind the counter value after the event's own
        packet. None is an exception: `create_packet` raising on the event,
        or `struct.pack` on the event or on the open batch. The counter
        moves on by one for the event's packet and by one for each batch
        packet sent. */
    method AddEvent(event: Event, maxSize: int, dumps: JsonSerializer, compress: Compressor, parseInt: IntParser,
                    ghost create: EventBuilder, st: Batcher, ghost s0: nat, ghost n: nat)
      returns (next: Option<Batcher>, ghost e: Batching.Sized<Event>)
      requires Valid() && packetSequence == (s0 + n + |st.sent|) % SequenceModulus
      requires create == EventBuilderOf(dumps, compressionEnabled, compress, parseInt)
      modifies this`packetSequence
      ensures Valid()
      ensures next.Some? ==>
                && EntryFor(event, e, create, (s0 + n + |st.sent|) % SequenceModulus)
                && next == Admitted(st, e, maxSize, BatchBuilderOf(dumps), (s0 + n + |st.sent| + 1) % SequenceModulus)
                && packetSequence == (s0 + n + 1 + |next.value.sent|) % SequenceModulus
      ensures next.None? ==>
                || !Creatable(event, parseInt) || |dumps(JObject(event))| >= 0x1_0000
                || (&& EntryFor(event, e, create, (s0 + n + |st.sent|) % SequenceModulus)
                    && st.batch != [] && st.size + e.size > maxSize && |dumps(EventList(st.batch))| >= 0x1_0000)
    {
      var size;
      size, e := MeasureEvent(event, dumps, compress, parseInt, create, s0 + n + |st.sent|);
      if size.None? {
        return None, e;
      }
      ghost var c := s0 + n + |st.sent| + 1;
      next := CloseOrExtend(st, event, size.value, maxSize, dumps, c);
      if next.Some? {
        CounterShift(c, |st.sent|, |next.value.sent|, s0 + n + 1);
      }
    }

    /** The first half of a round of `batch_events`: EventPacketSize, the
        event's packet being built behind the counter value reached, a
        modulo 65536. */
    method MeasureEvent(event: Event, dumps: JsonSerializer, compress: Compressor, parseInt: IntParser,
                        ghost create: EventBuilder, ghost a: nat)
      returns (size: Option<nat>, ghost e: Batching.Sized<Event>)
      requires Valid() && create == EventBuilderOf(dumps, compressionEnabled, compress, parseInt)
      requires packetSequence == a % SequenceModulus
      modifies this`packetSequence
      ensures Valid()
      ensures size.None? ==> !Creatable(event, parseInt) || |dumps(JObject(event))| >= 0x1_0000
      ensures size.Some? ==>
                && e == Batching.Sized(event, size.value) && EntryFor(event, e, create, a % SequenceModulus)
                && packetSequence == (a + 1) % SequenceModulus
    {
      ghost var before := packetSequence;
      size := EventPacketSize(event, dumps, compress, parseInt, create);
      e := Batching.Sized(event, if size.Some? then size.value else 0);
      if size.Some? {
        Advance(a, before, packetSequence);
      }
    }

    /** The second half of a round of `batch_events`: an event of the given
        packet length that does not fit closes the open batch, which is sent
        behind the counter value reached, c modulo 65536; otherwise the
        event joins the open batch. */
    method CloseOrExtend(st: Batcher, event: Event, size: nat, maxSize: int, dumps: JsonSerializer, ghost c: nat)
      returns (next: Option<Batcher>)
      requires Valid() && packetSequence == c % SequenceModulus
      modifies this`packetSequence
      ensures Valid()
      ensures next.Some? ==>
                && next == Admitted(st, Batching.Sized(event, size), maxSize, BatchBuilderOf(dumps), c % SequenceModulus)
                && |st.sent| <= |next.value.sent| <= |st.sent| + 1
                && packetSequence == (c + |next.value.sent| - |st.sent|) % SequenceModulus
      ensures next.None? ==> st.batch != [] && st.size + size > maxSize && |dumps(EventList(st.batch))| >= 0x1_0000
    {
      if st.size + size > maxSize && st.batch != [] {
        ghost var sequence := packetSequence;
        var batch := SendBatch(st.batch, dumps, BatchBuilderOf(dumps));
        if batch.None? {
          return None;
        }
        Advance(c, sequence, packetSequence);
        next := Some(Batcher(st.sent + [batch.value], [event], size));
        assert BatchBuilderOf(dumps)(sequence, st.batch) == batch;
      } else {
        next := Some(Batcher(st.sent, st.batch + [event], st.size + size));
      }
    }

    /** The end of `batch_events`: the open batch, if any, is sent with
        `create_batch_packet`, as Flushed says. */
    method FlushBatches(st: Batcher, dumps: JsonSerializer) returns (packets: Option<seq<Packet>>)
      requires Valid()
      modifies this`packetSequence
      ensures Valid()
      ensures packets == Flushed(st, BatchBuilderOf(dumps), old(packetSequence))
      ensures packets.None? ==> st.batch != [] && |dumps(EventList(st.batch))| >= 0x1_0000
      ensures packetSequence == if packets.Some? && st.batch != [] then (old(packetSequence) + 1) % SequenceModulus
                                else old(packetSequence)
    {
      if st.batch == [] {
        return Some(st.sent);
      }
      var last := SendBatch(st.batch, dumps, BatchBuilderOf(dumps));
      if last.None? {
        return None;
      }
      packets := Some(st.sent + [last.value]);
    }

    /** One pass of the loop of `batch_events` over the event after
        `entries`: AddEvent, with the loop's ghost account moved on by
        ProgressAdmit. On None the exception's cause is the event's own JSON
        or the run of events of the open batch, which then ends just before
        it. */
    method BatchStep(events: seq<Event>, maxSize: int, dumps: JsonSerializer, compress: Compressor,
                     parseInt: IntParser, ghost create: EventBuilder, ghost s0: nat, st: Batcher, i: nat,
                     ghost entries: seq<Batching.Sized<Event>>, ghost g: Batching.Grouping<Event>,
                     ghost sequences: seq<nat>, ghost start: nat)
      returns (next: Option<Batcher>, ghost e: Batching.Sized<Event>, ghost sequences': seq<nat>, ghost start': nat)
      requires Valid() && i == |entries| < |events|
      requires create == EventBuilderOf(dumps, compressionEnabled, compress, parseInt)
      requires Progress(events, create, BatchBuilderOf(dumps), s0, maxSize, st, entries, g, sequences, start,
                        packetSequence)
      modifies this`packetSequence
      ensures Valid()
      ensures next.Some? ==>
                Progress(events, create, BatchBuilderOf(dumps), s0, maxSize, next.value, entries + [e],
                         Batching.Admit(g, e, maxSize), sequences', start', packetSequence)
      ensures next.None? ==>
                || !Creatable(events[i], parseInt) || |dumps(JObject(events[i]))| >= 0x1_0000
                || (start < i && |dumps(EventList(events[start..i]))| >= 0x1_0000)
      ensures next.None? ==> RaisesAt(events, dumps, parseInt, create, s0, maxSize, entries)
    {
      ghost var counter := packetSequence;
      next, e := AddEvent(events[i], maxSize, dumps, compress, parseInt, create, st, s0, |entries|);
      if next.None? {
        ProgressFails(events, dumps, parseInt, create, BatchBuilderOf(dumps), s0, maxSize, st, entries, g, sequences,
                      start, counter, e);
        return next, e, sequences, start;
      }
      sequences', start' := ProgressAdmit(events, maxSize, create, BatchBuilderOf(dumps), s0, st, entries, g,
                                          sequences, start, counter, e, next.value, packetSequence);
    }

    /** `batch_events`: AddEvent for each event in turn, then FlushBatches.
        On success the ghost result records each event with the length of
        the packet `create_packet` built for it, behind the counter value it
        had reached (EntriesDetermined: these are the only such records);
        there is one packet per batch of the greedy grouping of those
        lengths, each the batch frame of its events behind the counter value
        EmittedAt gives. None is an exception, and the ghost result then
        records the events before the round that raised (all of them when
        the final flush raised): RaisesAt says that the greedy loop state
        reached there does raise, on the event itself or on the open batch
        it closes or flushes. */
    method BatchEvents(events: seq<Event>, maxSize: int, dumps: JsonSerializer, compress: Compressor,
                       parseInt: IntParser)
      returns (packets: Option<seq<Packet>>, ghost entries: seq<Batching.Sized<Event>>)
      requires Valid()
      modifies this`packetSequence
      ensures Valid()
      ensures packets.Some? ==>
                && |entries| == |events|
                && EntriesFor(events, EventBuilderOf(dumps, compressionEnabled, compress, parseInt),
                              old(packetSequence), maxSize, entries)
      ensures packets.Some? ==>
                && Emitted(events, maxSize, dumps, old(packetSequence), entries, packets.value)
                && packetSequence == (old(packetSequence) + |events| + |packets.value|) % SequenceModulus
      // The caller-facing summary of the RaisesAt clause below: some event, or
      // some run of consecutive events, cannot be packed.
      ensures packets.None? ==>
                || (exists k :: 0 <= k < |events| &&
                                (!Creatable(events[k], parseInt) || |dumps(JObject(events[k]))| >= 0x1_0000))
                || (exists a, b :: 0 <= a < b <= |events| && |dumps(EventList(events[a..b]))| >= 0x1_0000)
      ensures packets.None? ==>
                RaisesAt(events, dumps, parseInt, EventBuilderOf(dumps, compressionEnabled, compress, parseInt),
                         old(packetSequence), maxSize, entries)
    {
      ghost var s0 := packetSequence;
      var st;
      ghost var sequences, start;
      st, entries, sequences, start := AddEvents(events, maxSize, dumps, compress, parseInt);
      if st.None? {
        return None, entries;
      }
      packets := FinishBatches(events, maxSize, dumps, parseInt,
                               EventBuilderOf(dumps, compressionEnabled, compress, parseInt), s0, st.value, entries, sequences, start);
    }

    /** The loop of `batch_events`: BatchStep for each event in turn. */
    method AddEvents(events: seq<Event>, maxSize: int, dumps: JsonSerializer, compress: Compressor,
                     parseInt: IntParser)
      returns (st: Option<Batcher>, ghost entries: seq<Batching.Sized<Event>>, ghost sequences: seq<nat>,
               ghost start: nat)
      requires Valid()
      modifies this`packetSequence
      ensures Valid()
      ensures st.Some? ==>
                && |entries| == |events|
                && Progress(events, EventBuilderOf(dumps, compressionEnabled, compress, parseInt),
                            BatchBuilderOf(dumps), old(packetSequence), maxSize, st.value, entries,
                            Batching.Group(entries, maxSize), sequences, start, packetSequence)
      // The caller-facing summary of the RaisesAt clause below.
      ensures st.None? ==>
                || (exists k :: 0 <= k < |events| &&
                                (!Creatable(events[k], parseInt) || |dumps(JObject(events[k]))| >= 0x1_0000))
                || (exists a, b :: 0 <= a < b <= |events| && |dumps(EventList(events[a..b]))| >= 0x1_0000)
      ensures st.None? ==>
                && |entries| < |events|
                && RaisesAt(events, dumps, parseInt, EventBuilderOf(dumps, compressionEnabled, compress, parseInt),
                            old(packetSequence), maxSize, entries)
    {
      ghost var s0 := packetSequence;
      var batcher := Batcher([], [], 0);
      entries := [];
      ghost var g := Batching.Grouping([], [], 0);
      sequences := [];
      start := 0;
      ghost var create := EventBuilderOf(dumps, compressionEnabled, compress, parseInt);
      ProgressStart(events, create, BatchBuilderOf(dumps), s0, maxSize);
      var i := 0;
      while i < |events|
        invariant i == |entries| <= |events| && Valid()
        invariant g == Batching.Group(entries, maxSize)
        invariant Progress(events, create, BatchBuilderOf(dumps), s0, maxSize, batcher, entries, g,
                           sequences, start, packetSequence)
      {
        var next;
        ghost var e;
        next, e, sequences, start := BatchStep(events, maxSize, dumps, compress, parseInt, create, s0, batcher, i,
                                               entries, g, sequences, start);
        if next.None? {
          return None, entries, sequences, start;
        }
        Batching.GroupSnoc(entries, e, maxSize);
        batcher, entries, g := next.value, entries + [e], Batching.Admit(g, e, maxSize);
        i := i + 1;
      }
      st := Some(batcher);
    }

    /** The end of `batch_events`: FlushBatches, which completes the batch
        packets Emitted describes, or raises on the last run of events. */
    method FinishBatches(events: seq<Event>, maxSize: int, dumps: JsonSerializer, ghost parseInt: IntParser,
                         ghost create: EventBuilder, ghost s0: nat, st: Batcher,
                         ghost entries: seq<Batching.Sized<Event>>, ghost sequences: seq<nat>, ghost start: nat)
      returns (packets: Option<seq<Packet>>)
      requires Valid() && |entries| == |events|
      requires Progress(events, create, BatchBuilderOf(dumps), s0, maxSize, st, entries,
                        Batching.Group(entries, maxSize), sequences, start, packetSequence)
      modifies this`packetSequence
      ensures Valid()
      ensures packets.Some? ==>
                && EntriesFor(events, create, s0, maxSize, entries)
                && Emitted(events, maxSize, dumps, s0, entries, packets.value)
                && packetSequence == (s0 + |events| + |packets.value|) % SequenceModulus
      ensures packets.None? ==> start < |events| && |dumps(EventList(events[start..|events|]))| >= 0x1_0000
      ensures packets.None? ==> RaisesAt(events, dumps, parseInt, create, s0, maxSize, entries)
    {
      ghost var counter := packetSequence;
      packets := FlushBatches(st, dumps);
      if packets.None? {
        ProgressStuck(events, dumps, create, BatchBuilderOf(dumps), s0, maxSize, st, entries,
                      Batching.Group(entries, maxSize), sequences, start, counter);
        ProgressFlushRaises(events, dumps, parseInt, create, BatchBuilderOf(dumps), s0, maxSize, st, entries,
                            Batching.Group(entries, maxSize), sequences, start, counter);
        return;
      }
      ProgressFinish(events, maxSize, dumps, create, BatchBuilderOf(dumps), s0, st, entries, sequences,
                     start, counter, packets.value, packetSequence);
    }
  }
}
