/** The wire format of `ProtocolHandler` (pc-app/protocol.py) as pure
    functions: the frame layout, the checksum test, the compression rule
    of `build_packet`, and the decoder `parse_packet` with its `parse_*`
    helpers, none of which reads or writes the handler's state.

    A frame is `BB AA type payload crc_lo crc_hi`: the magic 0xAABB as a
    little-endian u16, the type byte (bit 7 = payload compressed), the
    payload, and the CRC-16/MODBUS of every preceding byte as a
    little-endian u16. */
module ProtocolFrames {
  import opened Wrappers
  import opened Bytes
  import opened Checksum
  import opened JsonValues

  type Packet = seq<byte>

  /** zlib.compress(payload, level=1) and zlib.decompress; `None` is the
      exception the call raises. */
  type Compressor = seq<byte> -> Option<seq<byte>>
  type Decompressor = seq<byte> -> Option<seq<byte>>

  const HeaderMagic: nat := 0xAABB
  const CompressedFlag: byte := 0x80
  const TypeMask: byte := 0x7F
  /** Payloads of at most this many bytes are never compressed. */
  const CompressionThreshold: nat := 64

  const MouseMovementType: byte := 0x01
  const MouseClickType: byte := 0x02
  const KeyboardType: byte := 0x03
  const ScrollType: byte := 0x04
  const ControlSwitchType: byte := 0x07
  const HeartbeatType: byte := 0x08
  const JsonType: byte := 0xFF
  const BatchType: byte := 0xFE

  /** HEADER_MAGIC in little-endian order is BB AA. */
  lemma MagicBytes()
    ensures U16(HeaderMagic) == [0xBB, 0xAA]
    ensures LeValue([0xBB, 0xAA]) == HeaderMagic
  {
    LeValue2([0xBB, 0xAA]);
    LeBytesOfLeValue([0xBB, 0xAA]);
  }

  /** The little-endian checksum field of a frame body
      (`struct.pack('<H', checksum)`). */
  function ChecksumField(body: seq<byte>): (r: seq<byte>)
    ensures |r| == 2
  {
    Le16(Crc16(body))
  }

  lemma ChecksumFieldValue(body: seq<byte>)
    ensures LeValue(ChecksumField(body)) == Crc16(body) as nat
  {
    Le16Value(Crc16(body));
  }

  /** `struct.pack('<HB', HEADER_MAGIC, type)`. */
  function Header(typeByte: byte): (h: seq<byte>)
    ensures |h| == 3
  {
    [0xBB, 0xAA, typeByte]
  }

  lemma HeaderPacksMagic(typeByte: byte)
    ensures Header(typeByte) == U16(HeaderMagic) + [typeByte]
  {
    MagicBytes();
  }

  /** The frame `build_packet` and `create_batch_packet` emit for a type
      byte and a (possibly compressed) payload. */
  function Frame(typeByte: byte, payload: seq<byte>): (f: Packet)
    ensures |f| == |payload| + 5
  {
    var body := Header(typeByte) + payload;
    body + ChecksumField(body)
  }

  /** Packing the header, appending the payload and then the packed
      checksum of both is the frame. */
  lemma FrameFromParts(typeByte: byte, payload: seq<byte>, checksum: bv16)
    requires checksum == Crc16(Header(typeByte) + payload)
    ensures Header(typeByte) + payload + Le16(checksum) == Frame(typeByte, payload)
  {
  }

  /** `verify_checksum`: false below two bytes, otherwise whether the
      trailing little-endian u16 is the checksum of everything before it. */
  function VerifyChecksum(packet: Packet): bool
  {
    if |packet| < 2 then false
    else LeValue(packet[|packet| - 2..]) == Crc16(packet[..|packet| - 2]) as nat
  }

  /** The pieces of a header, a payload and a two-byte trailer laid end to
      end. */
  lemma Layout(t: byte, p: seq<byte>, cs: seq<byte>)
    ensures ([0xBB, 0xAA, t] + p + cs)[..2] == [0xBB, 0xAA]
    ensures ([0xBB, 0xAA, t] + p + cs)[2] == t
    ensures ([0xBB, 0xAA, t] + p + cs)[3..|p| + 3] == p
  {
    var f := [0xBB, 0xAA, t] + p + cs;
    assert f[..2] == [f[0], f[1]];
    assert forall i :: 0 <= i < |p| ==> f[3..|p| + 3][i] == f[i + 3] == p[i];
  }

  /** Every frame has the layout `BB AA type payload crc_lo crc_hi`. */
  lemma FrameLayout(typeByte: byte, payload: seq<byte>)
    ensures Frame(typeByte, payload)[..2] == [0xBB, 0xAA]
    ensures Frame(typeByte, payload)[2] == typeByte
    ensures Frame(typeByte, payload)[3..|payload| + 3] == payload
    ensures LeValue(Frame(typeByte, payload)[..2]) == HeaderMagic
  {
    Layout(typeByte, payload, ChecksumField(Header(typeByte) + payload));
    MagicBytes();
  }

  /** Every frame passes `verify_checksum`. */
  lemma FrameVerifies(typeByte: byte, payload: seq<byte>)
    ensures VerifyChecksum(Frame(typeByte, payload))
  {
    var body := Header(typeByte) + payload;
    assert Frame(typeByte, payload) == body + ChecksumField(body);
    Halves(body, ChecksumField(body));
    ChecksumFieldValue(body);
  }

  /** The compression rule of `build_packet`: the payload is replaced by its
      compressed form, and 0x80 is ORed into the type byte, exactly when
      compression is enabled, the payload is longer than 64 bytes, zlib does
      not raise, and its output is strictly shorter. */
  function Compress(typeByte: byte, payload: seq<byte>, enabled: bool, compress: Compressor): (byte, seq<byte>)
  {
    if enabled && |payload| > CompressionThreshold && compress(payload).Some?
       && |compress(payload).value| < |payload|
    then (typeByte | CompressedFlag, compress(payload).value)
    else (typeByte, payload)
  }

  /** The first three stages of `parse_packet`, which look only at the
      frame: too short, wrong magic, wrong checksum. On success, the raw type
      byte and the raw payload. */
  function Unframe(packet: Packet): Option<(byte, seq<byte>)>
  {
    if |packet| < 5 then None
    else if LeValue(packet[..2]) != HeaderMagic then None
    else if !VerifyChecksum(packet) then None
    else Some((packet[2], packet[3..|packet| - 2]))
  }

  /** The first three stages accept exactly the frames: a byte string passes
      them if and only if it is `Frame(t, p)` for its own type byte and
      payload. */
  lemma UnframeAcceptsExactlyFrames(packet: Packet, typeByte: byte, payload: seq<byte>)
    ensures Unframe(packet) == Some((typeByte, payload)) <==> packet == Frame(typeByte, payload)
  {
    if packet == Frame(typeByte, payload) {
      FrameLayout(typeByte, payload);
      FrameVerifies(typeByte, payload);
    }
    if Unframe(packet) == Some((typeByte, payload)) {
      UnframedIsFrame(packet);
    }
  }

  /** A packet of five bytes or more is its first two bytes, its third, the
      bytes up to the last two, and those two. */
  lemma Pieces(s: seq<byte>)
    requires |s| >= 5
    ensures s[..|s| - 2] == s[..2] + [s[2]] + s[3..|s| - 2]
    ensures s == s[..|s| - 2] + s[|s| - 2..]
  {
  }

  /** Whatever passes the frame checks is the frame of its type byte and
      payload. */
  lemma UnframedIsFrame(packet: Packet)
    requires Unframe(packet).Some?
    ensures packet == Frame(Unframe(packet).value.0, Unframe(packet).value.1)
  {
    var n := |packet|;
    var body, trailer := packet[..n - 2], packet[n - 2..];
    var field := ChecksumField(body);
    ChecksumFieldValue(body);
    assert LeValue(trailer) == Crc16(body) as nat == LeValue(field);
    LeValueInjective(trailer, field);
    MagicBytes();
    LeValueInjective(packet[..2], [0xBB, 0xAA]);
    assert Header(packet[2]) == packet[..2] + [packet[2]];
    Pieces(packet);
    assert body == Header(packet[2]) + packet[3..n - 2];
    assert packet == body + field;
  }

  /** `parse_packet` up to the type dispatch: the masked type (bits 0-6) and
      the payload, decompressed when bit 7 of the type byte is set. */
  function Payload(packet: Packet, decompress: Decompressor): (r: Option<(byte, seq<byte>)>)
    ensures r.Some? ==> Unframe(packet).Some? && r.value.0 < 0x80
    ensures r.Some? ==> r.value.0 == Unframe(packet).value.0 & TypeMask
  {
    match Unframe(packet)
    case None => None
    case Some((typeByte, raw)) =>
      if typeByte & CompressedFlag != 0 then
        match decompress(raw)
        case None => None
        case Some(plain) => Some((typeByte & TypeMask, plain))
      else Some((typeByte & TypeMask, raw))
  }

  /** Payloads of at most 64 bytes are never compressed. */
  lemma ShortPayloadUncompressed(typeByte: byte, payload: seq<byte>, enabled: bool, compress: Compressor)
    requires |payload| <= CompressionThreshold
    ensures Compress(typeByte, payload, enabled, compress) == (typeByte, payload)
  {
  }

  /** An uncompressed frame of a type below 0x80 gives back its type and
      payload, whatever zlib's decompress would do. */
  lemma PayloadOfFrame(typeByte: byte, payload: seq<byte>, decompress: Decompressor)
    requires typeByte < 0x80
    ensures Payload(Frame(typeByte, payload), decompress) == Some((typeByte, payload))
  {
    UnframeAcceptsExactlyFrames(Frame(typeByte, payload), typeByte, payload);
    assert typeByte & CompressedFlag == 0 && typeByte & TypeMask == typeByte;
  }

  /** What the frame stages give back of what `build_packet` put in: when
      zlib's decompress undoes its compress on this payload, the decoder
      recovers the original type (below 0x80) and payload, whether or not
      the compression rule fired. */
  lemma PayloadRecoversBuild(typeByte: byte, payload: seq<byte>, enabled: bool,
                             compress: Compressor, decompress: Decompressor)
    requires typeByte < 0x80
    requires compress(payload).Some? ==> decompress(compress(payload).value) == Some(payload)
    ensures Payload(Frame(Compress(typeByte, payload, enabled, compress).0,
                          Compress(typeByte, payload, enabled, compress).1), decompress)
            == Some((typeByte, payload))
  {
    var c := Compress(typeByte, payload, enabled, compress);
    if c.0 == typeByte {
      PayloadOfFrame(typeByte, payload, decompress);
    } else {
      UnframeAcceptsExactlyFrames(Frame(c.0, c.1), c.0, c.1);
      assert c.0 & CompressedFlag != 0 && c.0 & TypeMask == typeByte;
    }
  }

  // ---------------------------------------------------------------------
  // struct.unpack, and the tuple assignment that receives its result

  /** The field codes used by the decoders: B, H, I, Q and 16s. */
  datatype Field = UInt8 | UInt16 | UInt32 | UInt64 | Bytes16

  function FieldSize(f: Field): nat
  {
    match f
    case UInt8 => 1
    case UInt16 => 2
    case UInt32 => 4
    case UInt64 => 8
    case Bytes16 => 16
  }

  function FormatSize(format: seq<Field>): nat
  {
    if format == [] then 0 else FieldSize(format[0]) + FormatSize(format[1..])
  }

  datatype Value = Int(n: nat) | Str(bytes: seq<byte>)

  function DecodeField(f: Field, bytes: seq<byte>): Value
  {
    if f == Bytes16 then Str(bytes) else Int(LeValue(bytes))
  }

  /** `struct.unpack('<' + format, data)`: fails unless the data has exactly
      the format's size, and yields one value per field. */
  function Unpack(format: seq<Field>, data: seq<byte>): (r: Option<seq<Value>>)
    ensures r.Some? <==> |data| == FormatSize(format)
    ensures r.Some? ==> |r.value| == |format|
  {
    if format == [] then (if data == [] then Some([]) else None)
    else
      var k := FieldSize(format[0]);
      if |data| < k then None
      else match Unpack(format[1..], data[k..])
        case None => None
        case Some(rest) => Some([DecodeField(format[0], data[..k])] + rest)
  }

  /** `a, b, … = struct.unpack(…)` with the given number of names: Python
      raises unless the tuple has exactly that many values. */
  function UnpackInto(format: seq<Field>, data: seq<byte>, names: nat): Option<seq<Value>>
  {
    match Unpack(format, data)
    case None => None
    case Some(values) => if |values| == names then Some(values) else None
  }

  /** Unpacking succeeds exactly when the data has the format's size and the
      format has as many fields as there are names. */
  lemma UnpackIntoSucceeds(format: seq<Field>, data: seq<byte>, names: nat)
    ensures UnpackInto(format, data, names).Some? <==> |data| == FormatSize(format) && |format| == names
  {
  }

  /** Whether `struct.pack` accepts this value for this field: an integer
      that fits the field's width, or (for `16s`) exactly 16 bytes. */
  predicate Fits(f: Field, v: Value)
  {
    match f
    case UInt8 => v.Int? && v.n < 0x100
    case UInt16 => v.Int? && v.n < 0x1_0000
    case UInt32 => v.Int? && v.n < 0x1_0000_0000
    case UInt64 => v.Int? && v.n < 0x1_0000_0000_0000_0000
    case Bytes16 => v.Str? && |v.bytes| == 16
  }

  lemma FitsWidth(f: Field, v: Value)
    requires Fits(f, v) && f != Bytes16
    ensures v.n < Pow256(FieldSize(f))
  {
    assert Pow256(1) == 0x100;
    assert Pow256(2) == 0x1_0000;
    assert Pow256(4) == 0x1_0000_0000;
    assert Pow256(8) == 0x1_0000_0000_0000_0000;
  }

  function PackField(f: Field, v: Value): (r: seq<byte>)
    requires Fits(f, v)
    ensures |r| == FieldSize(f)
  {
    if f == Bytes16 then v.bytes else FitsWidth(f, v); LeBytes(v.n, FieldSize(f))
  }

  /** `struct.pack('<' + format, *values)` for values the format accepts. */
  function Pack(format: seq<Field>, values: seq<Value>): (r: seq<byte>)
    requires |values| == |format|
    requires forall i :: 0 <= i < |format| ==> Fits(format[i], values[i])
    ensures |r| == FormatSize(format)
  {
    if format == [] then [] else PackField(format[0], values[0]) + Pack(format[1..], values[1..])
  }

  /** Decoding a packed field gives the value back. */
  lemma DecodePacked(f: Field, v: Value)
    requires Fits(f, v)
    ensures DecodeField(f, PackField(f, v)) == v
  {
    if f != Bytes16 {
      FitsWidth(f, v);
      LeValueOfLeBytes(v.n, FieldSize(f));
    }
  }

  /** Unpacking what was packed with the same format gives the values back. */
  lemma {:induction false} UnpackPack(format: seq<Field>, values: seq<Value>)
    requires |values| == |format|
    requires forall i :: 0 <= i < |format| ==> Fits(format[i], values[i])
    ensures Unpack(format, Pack(format, values)) == Some(values)
  {
    if format != [] {
      var head, tail := PackField(format[0], values[0]), Pack(format[1..], values[1..]);
      var data := Pack(format, values);
      assert data == head + tail;
      Halves(head, tail);
      DecodePacked(format[0], values[0]);
      UnpackPack(format[1..], values[1..]);
      assert Unpack(format, data) == Some([DecodeField(format[0], head)] + values[1..]);
      assert values == [values[0]] + values[1..];
    }
  }

  lemma Halves<X>(a: seq<X>, b: seq<X>)
    ensures (a + b)[..|a|] == a && (a + b)[|a|..] == b
  {
  }

  /** The i-th unpacked integer (0 for anything else). */
  function IntAt(values: seq<Value>, i: int): nat
  {
    if 0 <= i < |values| && values[i].Int? then values[i].n else 0
  }

  function StrAt(values: seq<Value>, i: int): seq<byte>
  {
    if 0 <= i < |values| && values[i].Str? then values[i].bytes else []
  }

  // ---------------------------------------------------------------------
  // The decoded messages and the per-type decoders

  datatype Message =
    | MouseMove(sequence: nat, x: nat, y: nat, timestamp: nat)
    | MouseClick(sequence: nat, x: nat, y: nat, button: string, pressed: bool, timestamp: nat)
    | KeyEvent(press: bool, sequence: nat, keyCode: nat, key: seq<byte>, pressed: bool, modifiers: nat, timestamp: nat)
    | Scroll(sequence: nat, x: nat, y: nat, dx: nat, dy: nat, timestamp: nat)
    | ControlSwitch(sequence: nat, edge: string, timestamp: nat)
    | Heartbeat(sequence: nat, timestamp: nat)
    | JsonMessage(value: Json)

  const MouseMovementFormat: seq<Field> := [UInt16, UInt32, UInt32, UInt64]                              // <HIIQ
  const MouseClickFormat: seq<Field> := [UInt16, UInt32, UInt32, UInt32, UInt8, UInt8, UInt64]          // <HIIIBBQ
  const KeyboardFormat: seq<Field> := [UInt16, UInt32, UInt8, UInt8, UInt8, Bytes16, UInt64]            // <HIBBB16sQ
  const ScrollFormat: seq<Field> := [UInt16, UInt32, UInt32, UInt16, UInt16, UInt16, UInt64]            // <HIIHHHQ
  const ControlSwitchFormat: seq<Field> := [UInt16, UInt8, UInt8, UInt8, UInt64]                         // <HBBBQ
  const HeartbeatFormat: seq<Field> := [UInt16, UInt64]                                                  // <HQ

  /** The first name in MOUSE_BUTTONS with this code, else "unknown". */
  function ButtonName(code: nat): string
  {
    if code == 1 then "left" else if code == 2 then "right" else if code == 3 then "middle"
    else if code == 4 then "x1" else if code == 5 then "x2" else "unknown"
  }

  /** The first name in CONTROL_EDGES with this code, else "unknown". */
  function EdgeName(code: nat): string
  {
    if code == 1 then "left" else if code == 2 then "right" else if code == 3 then "top"
    else if code == 4 then "bottom" else if code == 5 then "hotkey" else if code == 6 then "return_to_pc"
    else "unknown"
  }

  /** Trailing NUL bytes removed (`rstrip(b'\x00')`). */
  function StripNuls(s: seq<byte>): seq<byte>
  {
    if s != [] && s[|s| - 1] == 0 then StripNuls(s[..|s| - 1]) else s
  }

  function ParseMouseMovement(payload: seq<byte>): Option<Message>
  {
    match UnpackInto(MouseMovementFormat, payload, 4)
    case None => None
    case Some(v) => Some(MouseMove(IntAt(v, 0), IntAt(v, 1), IntAt(v, 2), IntAt(v, 3)))
  }

  function ParseMouseClick(payload: seq<byte>): Option<Message>
  {
    match UnpackInto(MouseClickFormat, payload, 6)
    case None => None
    case Some(v) => Some(MouseClick(IntAt(v, 0), IntAt(v, 1), IntAt(v, 2), ButtonName(IntAt(v, 3)),
                                    IntAt(v, 4) != 0, IntAt(v, 5)))
  }

  function ParseKeyboard(payload: seq<byte>): Option<Message>
  {
    match UnpackInto(KeyboardFormat, payload, 6)
    case None => None
    case Some(v) => Some(KeyEvent(IntAt(v, 2) == 1, IntAt(v, 0), IntAt(v, 1), StripNuls(StrAt(v, 4)),
                                  IntAt(v, 2) != 0, IntAt(v, 3), IntAt(v, 5)))
  }

  function ParseScroll(payload: seq<byte>): Option<Message>
  {
    match UnpackInto(ScrollFormat, payload, 6)
    case None => None
    case Some(v) => Some(Scroll(IntAt(v, 0), IntAt(v, 1), IntAt(v, 2), IntAt(v, 3), IntAt(v, 4), IntAt(v, 5)))
  }

  function ParseControlSwitch(payload: seq<byte>): Option<Message>
  {
    match UnpackInto(ControlSwitchFormat, payload, 6)
    case None => None
    case Some(v) => Some(ControlSwitch(IntAt(v, 0), EdgeName(IntAt(v, 1)), IntAt(v, 5)))
  }

  function ParseHeartbeat(payload: seq<byte>): Option<Message>
  {
    match UnpackInto(HeartbeatFormat, payload, 2)
    case None => None
    case Some(v) => Some(Heartbeat(IntAt(v, 0), IntAt(v, 1)))
  }

  /** `parse_json_packet`: sequence and length from the first four bytes
      (fails on fewer), then the (clamped) slice of that length decoded as
      UTF-8 and parsed as JSON. */
  function ParseJsonPacket(payload: seq<byte>, decodeUtf8: Utf8Decoder, loads: JsonParser): Option<Message>
  {
    if |payload| < 4 then None
    else
      var len := LeValue(payload[2..4]);
      var end := if 4 + len <= |payload| then 4 + len else |payload|;
      match decodeUtf8(payload[4..end])
      case None => None
      case Some(text) =>
        match loads(text)
        case None => None
        case Some(j) => Some(JsonMessage(j))
  }

  /** The type dispatch of `parse_packet`. */
  function Dispatch(packetType: byte, payload: seq<byte>, decodeUtf8: Utf8Decoder, loads: JsonParser): Option<Message>
  {
    if packetType == MouseMovementType then ParseMouseMovement(payload)
    else if packetType == MouseClickType then ParseMouseClick(payload)
    else if packetType == KeyboardType then ParseKeyboard(payload)
    else if packetType == ScrollType then ParseScroll(payload)
    else if packetType == ControlSwitchType then ParseControlSwitch(payload)
    else if packetType == HeartbeatType then ParseHeartbeat(payload)
    else if packetType == JsonType then ParseJsonPacket(payload, decodeUtf8, loads)
    else None
  }

  /** `parse_packet`. */
  function ParsePacket(packet: Packet, decompress: Decompressor, decodeUtf8: Utf8Decoder, loads: JsonParser): Option<Message>
  {
    match Payload(packet, decompress)
    case None => None
    case Some((packetType, payload)) => Dispatch(packetType, payload, decodeUtf8, loads)
  }

  // ---------------------------------------------------------------------
  // What parse_packet accepts

  /** The three frame checks come first and need nothing from zlib, UTF-8
      or JSON: a packet shorter than 5 bytes, one whose first LE u16 is not
      0xAABB, and one whose checksum does not match are rejected whatever
      those would do. */
  lemma ParseRejectsMalformedFrames(packet: Packet, decompress: Decompressor, decodeUtf8: Utf8Decoder, loads: JsonParser)
    requires |packet| < 5 || LeValue(packet[..2]) != HeaderMagic || !VerifyChecksum(packet)
    ensures ParsePacket(packet, decompress, decodeUtf8, loads) == None
  {
  }

  lemma FormatFacts()
    ensures FormatSize(MouseMovementFormat) == 18 && |MouseMovementFormat| == 4
    ensures FormatSize(HeartbeatFormat) == 10 && |HeartbeatFormat| == 2
    ensures |MouseClickFormat| == 7 && |KeyboardFormat| == 7 && |ScrollFormat| == 7
    ensures |ControlSwitchFormat| == 5
  {
  }

  /** The type dispatch yields a message exactly for type 0x01 with an
      18-byte payload and type 0x08 with a 10-byte one, as long as the type
      is below 0x80: the formats of 0x02, 0x03 and 0x04 unpack seven values
      into six names and that of 0x07 five into six. */
  lemma DispatchSucceedsExactly(t: byte, payload: seq<byte>, decodeUtf8: Utf8Decoder, loads: JsonParser)
    requires t < 0x80
    ensures Dispatch(t, payload, decodeUtf8, loads).Some? <==>
              (t == MouseMovementType && |payload| == 18) || (t == HeartbeatType && |payload| == 10)
  {
    FormatFacts();
    if t == MouseMovementType {
      UnpackIntoSucceeds(MouseMovementFormat, payload, 4);
    } else if t == MouseClickType {
      UnpackIntoSucceeds(MouseClickFormat, payload, 6);
    } else if t == KeyboardType {
      UnpackIntoSucceeds(KeyboardFormat, payload, 6);
    } else if t == ScrollType {
      UnpackIntoSucceeds(ScrollFormat, payload, 6);
    } else if t == ControlSwitchType {
      UnpackIntoSucceeds(ControlSwitchFormat, payload, 6);
    } else if t == HeartbeatType {
      UnpackIntoSucceeds(HeartbeatFormat, payload, 2);
    }
  }

  /** `parse_packet` yields a message exactly for a frame whose masked type
      is 0x01 with an 18-byte (decompressed) payload or 0x08 with a 10-byte
      one; the 0xFF branch cannot be reached because the masked type is
      below 0x80. */
  lemma ParseSucceedsExactly(packet: Packet, decompress: Decompressor, decodeUtf8: Utf8Decoder, loads: JsonParser)
    ensures ParsePacket(packet, decompress, decodeUtf8, loads).Some? <==>
              var r := Payload(packet, decompress);
              r.Some? && ((r.value.0 == MouseMovementType && |r.value.1| == 18) ||
                          (r.value.0 == HeartbeatType && |r.value.1| == 10))
  {
    if Payload(packet, decompress).Some? {
      var (t, payload) := Payload(packet, decompress).value;
      DispatchSucceedsExactly(t, payload, decodeUtf8, loads);
    }
  }

  /** The JSON (0xFF) and batch (0xFE) type bytes carry bit 7, so the
      decoder always takes them for compressed, masks them to 0x7F and 0x7E,
      and never decodes them. */
  lemma JsonAndBatchNeverDecode(packet: Packet, decompress: Decompressor, decodeUtf8: Utf8Decoder, loads: JsonParser)
    requires |packet| >= 3 && (packet[2] == JsonType || packet[2] == BatchType)
    ensures Payload(packet, decompress).Some? ==> Payload(packet, decompress).value.0 == packet[2] & TypeMask
    ensures ParsePacket(packet, decompress, decodeUtf8, loads) == None
  {
    ParseSucceedsExactly(packet, decompress, decodeUtf8, loads);
  }

  /** A mouse-movement payload packed with `<HIIQ` decodes to its four
      fields. */
  lemma MouseMovementDecodes(sequence: nat, x: nat, y: nat, timestamp: nat)
    requires sequence < 0x1_0000 && x < 0x1_0000_0000 && y < 0x1_0000_0000
    requires timestamp < 0x1_0000_0000_0000_0000
    ensures ParseMouseMovement(Pack(MouseMovementFormat, [Int(sequence), Int(x), Int(y), Int(timestamp)]))
            == Some(MouseMove(sequence, x, y, timestamp))
  {
    UnpackPack(MouseMovementFormat, [Int(sequence), Int(x), Int(y), Int(timestamp)]);
  }

  /** The heartbeat payload `<HQ` decodes to its sequence and timestamp. */
  lemma HeartbeatDecodes(sequence: nat, timestamp: nat)
    requires sequence < 0x1_0000 && timestamp < 0x1_0000_0000_0000_0000
    ensures ParseHeartbeat(Pack(HeartbeatFormat, [Int(sequence), Int(timestamp)])) == Some(Heartbeat(sequence, timestamp))
  {
    UnpackPack(HeartbeatFormat, [Int(sequence), Int(timestamp)]);
  }

  /** The payload of `create_heartbeat_packet`. */
  function HeartbeatPayload(sequence: nat, timestamp: nat): (r: seq<byte>)
    requires sequence < 0x1_0000 && timestamp < 0x1_0000_0000_0000_0000
    ensures |r| == 10
  {
    Pack(HeartbeatFormat, [Int(sequence), Int(timestamp)])
  }

  /** A heartbeat frame as `create_heartbeat_packet` builds it parses back
      to its sequence number and timestamp, whatever zlib does: the 10-byte
      payload is never compressed. */
  lemma HeartbeatRoundTrip(sequence: nat, timestamp: nat, enabled: bool, compress: Compressor,
                           decompress: Decompressor, decodeUtf8: Utf8Decoder, loads: JsonParser)
    requires sequence < 0x1_0000 && timestamp < 0x1_0000_0000_0000_0000
    ensures var c := Compress(HeartbeatType, HeartbeatPayload(sequence, timestamp), enabled, compress);
            ParsePacket(Frame(c.0, c.1), decompress, decodeUtf8, loads) == Some(Heartbeat(sequence, timestamp))
  {
    var payload := HeartbeatPayload(sequence, timestamp);
    ShortPayloadUncompressed(HeartbeatType, payload, enabled, compress);
    PayloadOfFrame(HeartbeatType, payload, decompress);
    HeartbeatDecodes(sequence, timestamp);
  }

  /** A change confined to one byte before the checksum field changes the
      CRC of the body and leaves the field alone. */
  lemma BodyByteChanged(x: Packet, y: Packet, k: nat)
    requires |x| == |y| && 2 <= |x| && k < |x| - 2
    requires x[k] != y[k]
    requires forall i :: 0 <= i < |x| && i != k ==> x[i] == y[i]
    ensures Crc16(x[..|x| - 2]) as nat != Crc16(y[..|x| - 2]) as nat
    ensures x[|x| - 2..] == y[|x| - 2..]
  {
    var n := |x|;
    Crc16DetectsSingleByteError(x[..n - 2], y[..n - 2], k);
    Bv16Distinct(Crc16(x[..n - 2]), Crc16(y[..n - 2]));
  }

  /** A change confined to one byte of the checksum field changes the field's
      value and leaves the body alone. */
  lemma FieldByteChanged(x: Packet, y: Packet, k: nat)
    requires |x| == |y| && 2 <= |x| && |x| - 2 <= k < |x|
    requires x[k] != y[k]
    requires forall i :: 0 <= i < |x| && i != k ==> x[i] == y[i]
    ensures LeValue(x[|x| - 2..]) != LeValue(y[|x| - 2..])
    ensures x[..|x| - 2] == y[..|x| - 2]
  {
    var n := |x|;
    assert x[n - 2..][k - (n - 2)] != y[n - 2..][k - (n - 2)];
    LeValueDistinct(x[n - 2..], y[n - 2..]);
  }

  /** `verify_checksum` catches every corruption confined to one byte of a
      packet that passed it. */
  lemma VerifyChecksumDetectsSingleByteError(x: Packet, y: Packet, k: nat)
    requires |x| == |y| && 2 <= |x| && k < |x|
    requires x[k] != y[k]
    requires forall i :: 0 <= i < |x| && i != k ==> x[i] == y[i]
    requires VerifyChecksum(x)
    ensures !VerifyChecksum(y)
  {
    if k < |x| - 2 {
      BodyByteChanged(x, y, k);
    } else {
      FieldByteChanged(x, y, k);
    }
  }

  /** A frame with any one byte changed fails the frame checks: a change in
      the body changes its CRC-16 while the stored field stays, a change in
      the field leaves the CRC-16 of the body as it was. */
  lemma ParseRejectsSingleByteCorruption(typeByte: byte, payload: seq<byte>, corrupted: Packet, k: nat,
                                         decompress: Decompressor, decodeUtf8: Utf8Decoder, loads: JsonParser)
    requires |corrupted| == |Frame(typeByte, payload)| && k < |corrupted|
    requires corrupted[k] != Frame(typeByte, payload)[k]
    requires forall i :: 0 <= i < |corrupted| && i != k ==> corrupted[i] == Frame(typeByte, payload)[i]
    ensures Unframe(corrupted) == None
    ensures ParsePacket(corrupted, decompress, decodeUtf8, loads) == None
  {
    FrameVerifies(typeByte, payload);
    VerifyChecksumDetectsSingleByteError(Frame(typeByte, payload), corrupted, k);
  }
}
