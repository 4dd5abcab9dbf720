/** The binary frames of the Doubao speech services: printer and parser. */
module DoubaoProtocol {
  import opened Common
  import opened ByteOrder
  import opened ByteBuffer

  const MSG_FULL_CLIENT: bv8 := 1
  const MSG_AUDIO_ONLY_CLIENT: bv8 := 2
  const MSG_ERROR: bv8 := 15
  const FLAG_POS_SEQUENCE: bv8 := 1
  const FLAG_NEG_SEQUENCE: bv8 := 2
  const FLAG_WITH_EVENT: bv8 := 4
  const SERIALIZATION_NONE: bv8 := 0
  const SERIALIZATION_JSON: bv8 := 1
  const COMPRESSION_NONE: bv8 := 0
  const COMPRESSION_GZIP: bv8 := 1

  datatype Protocol = Protocol(version: bv8, headerSize: bv8, compression: bv8, serialization: bv8)

  const NEW_PROTOCOL := Protocol(1, 1, COMPRESSION_NONE, SERIALIZATION_JSON)

  datatype Message = Message(
    msgType: bv8, flags: bv8, event: int32, sessionID: Bytes, connectID: Bytes, sequence: int32,
    errorCode: uint32, payload: Bytes)

  /** The gzip library. inflate is decompression through a reader that stops after a
      given number of bytes. */
  datatype Gzip = Gzip(
    compress: Bytes -> Bytes, decompress: Bytes -> Option<Bytes>, inflate: (Bytes, nat) -> Option<Bytes>)

  /** Decompression undoes compression, whose output is never empty. */
  ghost predicate Inverse(gz: Gzip) {
    forall s :: gz.compress(s) != [] && gz.decompress(gz.compress(s)) == Some(s)
  }

  /** A limited reader yields the start of what decompression yields, and succeeds where
      decompression fails only if it stops before it gets to the damage. No input at all
      is not an archive. */
  ghost predicate Reads(gz: Gzip) {
    && (forall s, n: nat :: gz.decompress(s).Some? ==>
          var d := gz.decompress(s).value; gz.inflate(s, n) == Some(d[..Min(n, |d|)]))
    && (forall s, n: nat :: gz.inflate(s, n).Some? && gz.decompress(s).None? ==> |gz.inflate(s, n).value| == n)
    && gz.decompress([]) == None && forall n: nat :: gz.inflate([], n) == None
  }

  datatype CodecError =
    | DataTooShort | ReadSequence | ReadEvent | ReadSessionIDLength | ReadSessionID | ReadConnectIDLength
    | ReadConnectID | ReadErrorCode | ReadPayloadSize | ReadPayload | GzipDecompress

  predicate HasSequence(flags: bv8) { flags & FLAG_POS_SEQUENCE != 0 || flags & FLAG_NEG_SEQUENCE != 0 }
  predicate HasEvent(flags: bv8) { flags & FLAG_WITH_EVENT != 0 }

  /** Connection events: started, failed, finished. */
  predicate IsConnection(event: int32) { event == 50 || event == 51 || event == 52 }

  /** Events that carry a session: all but session start and finish and the connection events. */
  predicate HasSession(event: int32) { event != 1 && event != 2 && !IsConnection(event) }

  /** Two nibbles as one byte. A low part wider than a nibble spills into the high one. */
  function Pack(hi: bv8, lo: bv8): byte { Octet((hi << 4) | lo) }

  function High(b: byte): bv8 { Bits(b) >> 4 }
  function Low(b: byte): bv8 { Bits(b) & 0x0f }

  // ---- Printer ----

  function Header(p: Protocol, msgType: bv8, flags: bv8): (s: Bytes)
    ensures |s| == 4
  {
    [Pack(p.version, p.headerSize), Pack(msgType, flags), Pack(p.serialization, p.compression), 0]
  }

  function SequencePart(m: Message): Bytes {
    if HasSequence(m.flags) then Word(Unsigned(m.sequence)) else []
  }

  function SessionPart(m: Message): Bytes {
    if HasSession(m.event) then Word(Length32(m.sessionID)) + m.sessionID else []
  }

  function EventPart(m: Message): Bytes {
    if HasEvent(m.flags) then Word(Unsigned(m.event)) + SessionPart(m) else []
  }

  /** The payload as it travels. */
  function Carried(p: Protocol, gz: Gzip, m: Message): Bytes {
    if p.compression == COMPRESSION_GZIP && |m.payload| > 0 then gz.compress(m.payload) else m.payload
  }

  function Encode(p: Protocol, gz: Gzip, m: Message): Bytes {
    Header(p, m.msgType, m.flags) + SequencePart(m) + EventPart(m)
      + Word(Length32(Carried(p, gz, m))) + Carried(p, gz, m)
  }

  /** Builds the frame field by field. */
  method Marshal(p: Protocol, gz: Gzip, msg: Message) returns (data: Bytes)
    ensures data == Encode(p, gz, msg)
  {
    var buf := new Buffer([]);
    buf.WriteByte(Pack(p.version, p.headerSize));
    buf.WriteByte(Pack(msg.msgType, msg.flags));
    buf.WriteByte(Pack(p.serialization, p.compression));
    buf.WriteByte(0);
    if msg.flags & FLAG_POS_SEQUENCE != 0 || msg.flags & FLAG_NEG_SEQUENCE != 0 {
      buf.WriteWord(Unsigned(msg.sequence));
    }
    assert buf.unread == Header(p, msg.msgType, msg.flags) + SequencePart(msg);
    MarshalEvent(buf, msg);
    var payload := msg.payload;
    if p.compression == COMPRESSION_GZIP && |payload| > 0 {
      payload := gz.compress(payload);
    }
    buf.WriteWord(Length32(payload));
    buf.Write(payload);
    data := buf.unread;
  }

  method MarshalEvent(buf: Buffer, msg: Message)
    modifies buf
    ensures buf.unread == old(buf.unread) + EventPart(msg)
  {
    ghost var before := buf.unread;
    if msg.flags & FLAG_WITH_EVENT != 0 {
      buf.WriteWord(Unsigned(msg.event));
      ghost var withEvent := buf.unread;
      if msg.event != 1 && msg.event != 2 && msg.event != 50 && msg.event != 51 && msg.event != 52 {
        buf.WriteWord(Length32(msg.sessionID));
        buf.Write(msg.sessionID);
      }
      assert buf.unread == withEvent + SessionPart(msg);
      assert buf.unread == before + (Word(Unsigned(msg.event)) + SessionPart(msg));
    }
  }

  // ---- Parser ----

  function DecodeSequence(flags: bv8, s: Bytes): Result<(int32, Bytes), CodecError> {
    if !HasSequence(flags) then Ok((0, s))
    else match TakeWord(s)
      case None => Err(ReadSequence)
      case Some((n, rest)) => Ok((Signed(n), rest))
  }

  /** A length word and that many bytes; an absent body is an error, a short one is not. */
  function DecodeBlock(s: Bytes, noLength: CodecError, noBody: CodecError): Result<(Bytes, Bytes), CodecError> {
    match TakeWord(s)
    case None => Err(noLength)
    case Some((n, rest)) =>
      if n == 0 then Ok(([], rest))
      else match TakeBytes(rest, n)
        case None => Err(noBody)
        case Some(r) => Ok(r)
  }

  /** The event with its session and connection identifiers. */
  function DecodeEvent(flags: bv8, s: Bytes): Result<(int32, Bytes, Bytes, Bytes), CodecError> {
    if !HasEvent(flags) then Ok((0, [], [], s))
    else match TakeWord(s)
      case None => Err(ReadEvent)
      case Some((n, rest)) =>
        var event := Signed(n);
        if HasSession(event) then
          var (id, rest) :- DecodeBlock(rest, ReadSessionIDLength, ReadSessionID);
          Ok((event, id, [], rest))
        else if IsConnection(event) then
          var (id, rest) :- DecodeBlock(rest, ReadConnectIDLength, ReadConnectID);
          Ok((event, [], id, rest))
        else Ok((event, [], [], rest))
  }

  function DecodeErrorCode(msgType: bv8, s: Bytes): Result<(uint32, Bytes), CodecError> {
    if msgType != MSG_ERROR then Ok((0, s))
    else match TakeWord(s)
      case None => Err(ReadErrorCode)
      case Some(r) => Ok(r)
  }

  function DecodePayload(gz: Gzip, compression: bv8, s: Bytes): Result<Bytes, CodecError> {
    var (payload, _) :- DecodeBlock(s, ReadPayloadSize, ReadPayload);
    if compression == COMPRESSION_GZIP && payload != [] then
      (match gz.decompress(payload)
       case None => Err(GzipDecompress)
       case Some(d) => Ok(d))
    else Ok(payload)
  }

  /** What follows the header, past any extra header words. */
  function Body(data: Bytes): Bytes
    requires |data| >= 4
  {
    var size := Low(data[0]) as nat;
    var extra := if size > 1 then 4 * (size - 1) else 0;
    data[4..][Min(extra, |data| - 4)..]
  }

  /** Everything behind the header. */
  function DecodeBody(gz: Gzip, msgType: bv8, flags: bv8, compression: bv8, s: Bytes): Result<Message, CodecError> {
    var (sequence, s) :- DecodeSequence(flags, s);
    var (event, sessionID, connectID, s) :- DecodeEvent(flags, s);
    var (errorCode, s) :- DecodeErrorCode(msgType, s);
    var payload :- DecodePayload(gz, compression, s);
    Ok(Message(msgType, flags, event, sessionID, connectID, sequence, errorCode, payload))
  }

  function Decode(gz: Gzip, data: Bytes): Result<Message, CodecError> {
    if |data| < 4 then Err(DataTooShort)
    else DecodeBody(gz, High(data[1]), Low(data[1]), Low(data[2]), Body(data))
  }

  /** Consumes the frame field by field. */
  method Unmarshal(gz: Gzip, data: Bytes) returns (r: Result<Message, CodecError>)
    ensures r == Decode(gz, data)
  {
    if |data| < 4 {
      return Err(DataTooShort);
    }
    var buf := new Buffer(data);
    var versionAndSize := buf.ReadByte();
    var typeAndFlags := buf.ReadByte();
    var serAndComp := buf.ReadByte();
    var reserved := buf.ReadByte();
    assert buf.unread == data[4..];
    var headerSize := Low(versionAndSize) as nat;
    if headerSize > 1 {
      buf.Next((headerSize - 1) * 4);
    }
    assert buf.unread == Body(data);
    r := UnmarshalBody(buf, gz, High(typeAndFlags), Low(typeAndFlags), Low(serAndComp));
  }

  method UnmarshalBody(buf: Buffer, gz: Gzip, msgType: bv8, flags: bv8, compression: bv8)
    returns (r: Result<Message, CodecError>)
    modifies buf
    ensures r == DecodeBody(gz, msgType, flags, compression, old(buf.unread))
  {
    var msg := Message(msgType, flags, 0, [], [], 0, 0, []);
    if HasSequence(msg.flags) {
      var sequence := buf.ReadWord();
      if sequence.None? {
        return Err(ReadSequence);
      }
      msg := msg.(sequence := Signed(sequence.value));
    }
    var event := UnmarshalEvent(buf, msg.flags);
    if event.Err? {
      return Err(event.error);
    }
    msg := msg.(event := event.value.0, sessionID := event.value.1, connectID := event.value.2);
    if msg.msgType == MSG_ERROR {
      var code := buf.ReadWord();
      if code.None? {
        return Err(ReadErrorCode);
      }
      msg := msg.(errorCode := code.value);
    }
    var payload := UnmarshalBlock(buf, ReadPayloadSize, ReadPayload);
    if payload.Err? {
      return Err(payload.error);
    }
    msg := msg.(payload := payload.value);
    if msg.payload != [] && compression == COMPRESSION_GZIP {
      var d := gz.decompress(msg.payload);
      if d.None? {
        return Err(GzipDecompress);
      }
      msg := msg.(payload := d.value);
    }
    return Ok(msg);
  }

  method UnmarshalBlock(buf: Buffer, noLength: CodecError, noBody: CodecError) returns (r: Result<Bytes, CodecError>)
    modifies buf
    ensures var d := DecodeBlock(old(buf.unread), noLength, noBody);
      if d.Err? then r == Err(d.error) else r == Ok(d.value.0) && buf.unread == d.value.1
  {
    var length := buf.ReadWord();
    if length.None? {
      return Err(noLength);
    }
    if length.value > 0 {
      var body := buf.Read(length.value);
      if body.None? {
        return Err(noBody);
      }
      return Ok(body.value);
    }
    return Ok([]);
  }

  method UnmarshalEvent(buf: Buffer, flags: bv8) returns (r: Result<(int32, Bytes, Bytes), CodecError>)
    modifies buf
    ensures var d := DecodeEvent(flags, old(buf.unread));
      if d.Err? then r == Err(d.error)
      else r == Ok((d.value.0, d.value.1, d.value.2)) && buf.unread == d.value.3
  {
    if !HasEvent(flags) {
      return Ok((0, [], []));
    }
    var word := buf.ReadWord();
    if word.None? {
      return Err(ReadEvent);
    }
    var event := Signed(word.value);
    var sessionID, connectID: Bytes := [], [];
    if event != 1 && event != 2 && event != 50 && event != 51 && event != 52 {
      var id := UnmarshalBlock(buf, ReadSessionIDLength, ReadSessionID);
      if id.Err? {
        return Err(id.error);
      }
      sessionID := id.value;
    }
    if event == 50 || event == 51 || event == 52 {
      var id := UnmarshalBlock(buf, ReadConnectIDLength, ReadConnectID);
      if id.Err? {
        return Err(id.error);
      }
      connectID := id.value;
    }
    return Ok((event, sessionID, connectID));
  }
}
