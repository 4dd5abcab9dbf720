/** The hand-written relatives of the frame codec: the audio-only printer, the request
    printer and response parser of the SAMI podcast service, and the response parser of
    the SAUC recognition service. Each against the codec proper. */
module DoubaoVariants {
  import opened Common
  import opened ByteOrder
  import opened ByteBuffer
  import opened DoubaoProtocol
  import opened CodecLaws

  // ---- Printers ----

  function AudioOnly(payload: Bytes, isLast: bool): Message {
    Message(MSG_AUDIO_ONLY_CLIENT, if isLast then FLAG_NEG_SEQUENCE else 0, 0, [], [], 0, 0, payload)
  }

  /** `marshalAudioOnly`: never a sequence number, never compressed. */
  method MarshalAudioOnly(p: Protocol, msg: Message) returns (data: Bytes)
    ensures data == Header(p.(serialization := SERIALIZATION_NONE, compression := COMPRESSION_NONE), msg.msgType, msg.flags)
      + Word(Length32(msg.payload)) + msg.payload
  {
    var buf := new Buffer([]);
    buf.WriteByte(Pack(p.version, p.headerSize));
    buf.WriteByte(Pack(msg.msgType, msg.flags));
    buf.WriteByte(Pack(SERIALIZATION_NONE, COMPRESSION_NONE));
    buf.WriteByte(0);
    ghost var header := buf.unread;
    assert header == Header(p.(serialization := SERIALIZATION_NONE, compression := COMPRESSION_NONE), msg.msgType, msg.flags);
    buf.WriteWord(Length32(msg.payload));
    buf.Write(msg.payload);
    data := buf.unread;
    assert data == header + Word(Length32(msg.payload)) + msg.payload;
  }

  /** An audio frame is the codec's own frame exactly when it is not the last one. */
  lemma AudioOnlyIsMarshal(p: Protocol, gz: Gzip, payload: Bytes, isLast: bool)
    ensures var m := AudioOnly(payload, isLast);
      var plain := p.(serialization := SERIALIZATION_NONE, compression := COMPRESSION_NONE);
      Header(plain, m.msgType, m.flags) + Word(Length32(payload)) + payload == Encode(plain, gz, m) <==> !isLast
  {
    var m := AudioOnly(payload, isLast);
    var plain := p.(serialization := SERIALIZATION_NONE, compression := COMPRESSION_NONE);
    assert Encode(plain, gz, m) == Header(plain, m.msgType, m.flags) + SequencePart(m) + Word(Length32(payload)) + payload;
  }

  lemma StartSessionFrame(reqID: Bytes, jsonData: Bytes, gz: Gzip)
    ensures [0x11, 0x14, 0x10, 0x00] + Word(100) + Word(Length32(reqID)) + reqID + Word(Length32(jsonData)) + jsonData
      == Encode(NEW_PROTOCOL, gz, Message(MSG_FULL_CLIENT, FLAG_WITH_EVENT, 100, reqID, [], 0, 0, jsonData))
  {
    var m := Message(MSG_FULL_CLIENT, FLAG_WITH_EVENT, 100, reqID, [], 0, 0, jsonData);
    var header := Header(NEW_PROTOCOL, m.msgType, m.flags);
    assert header == [0x11, 0x14, 0x10, 0x00];
    assert EventPart(m) == Word(100) + (Word(Length32(reqID)) + reqID);
    assert header + SequencePart(m) + EventPart(m) == header + Word(100) + Word(Length32(reqID)) + reqID;
  }

  /** `sendRequestSAMI` builds the start-session frame byte by byte; it is the codec's
      frame for event 100. */
  method RequestSAMI(reqID: Bytes, jsonData: Bytes, ghost gz: Gzip) returns (data: Bytes)
    ensures data == Encode(NEW_PROTOCOL, gz, Message(MSG_FULL_CLIENT, FLAG_WITH_EVENT, 100, reqID, [], 0, 0, jsonData))
  {
    var buf := new Buffer([]);
    buf.WriteByte(0x11);
    buf.WriteByte(0x14);
    buf.WriteByte(0x10);
    buf.WriteByte(0x00);
    assert buf.unread == [0x11, 0x14, 0x10, 0x00];
    buf.WriteWord(100);
    buf.WriteWord(Length32(reqID));
    buf.Write(reqID);
    buf.WriteWord(Length32(jsonData));
    buf.Write(jsonData);
    data := buf.unread;
    StartSessionFrame(reqID, jsonData, gz);
  }

  // ---- Parsers ----

  /** A response as the two receive loops see it. */
  datatype Frame = Frame(msgType: bv8, flags: bv8, event: int32, payload: Bytes)

  const SAUC_LIMIT := 10 * 1024 * 1024

  /** A length word and that many bytes, all of them present. */
  function WholeBlock(s: Bytes): Option<(Bytes, Bytes)> {
    match TakeWord(s)
    case None => None
    case Some((n, rest)) => if n <= |rest| then Some((rest[..n], rest[n..])) else None
  }

  /** The receive loop of SAMI on one binary message; None where it skips the message.
      It ignores the header size and skips the session of every event. */
  function ParseSAMI(gz: Gzip, data: Bytes): Option<Frame> {
    if |data| < 4 then None
    else BehindSAMI(gz, High(data[1]), Low(data[1]), Low(data[2]), data[4..])
  }

  function BehindSAMI(gz: Gzip, msgType: bv8, flags: bv8, compression: bv8, s: Bytes): Option<Frame> {
    match SkipEvent(flags, s)
    case None => None
    case Some((event, s)) =>
      match WholeBlock(s)
      case None => None
      case Some((payload, _)) =>
        var plain := if compression == COMPRESSION_GZIP && payload != []
          then gz.decompress(payload).GetOr(payload) else payload;
        Some(Frame(msgType, flags, event, plain))
  }

  function SkipEvent(flags: bv8, s: Bytes): Option<(int32, Bytes)> {
    if !HasEvent(flags) then Some((0, s))
    else match TakeWord(s)
      case None => None
      case Some((n, rest)) =>
        match WholeBlock(rest)
        case None => None
        case Some((_, rest)) => Some((Signed(n), rest))
  }

  /** The same loop with its running offset. */
  method ReceiveSAMI(gz: Gzip, data: Bytes) returns (r: Option<Frame>)
    ensures r == ParseSAMI(gz, data)
  {
    if |data| < 4 {
      return None;
    }
    var flags := Low(data[1]);
    var offset := 4;
    var event: int32 := 0;
    if HasEvent(flags) {
      if |data| < offset + 4 {
        return None;
      }
      WordBound(data[offset..offset + 4]);
      assert data[4..][..4] == data[4..8] && data[4..][4..] == data[8..];
      event := Signed(Number(data[offset..offset + 4]));
      offset := offset + 4;
      if |data| < offset + 4 {
        return None;
      }
      WordBound(data[offset..offset + 4]);
      assert data[8..][..4] == data[8..12] && data[8..][4..] == data[12..];
      offset := offset + 4 + Number(data[offset..offset + 4]);
    }
    if |data| < offset + 4 {
      return None;
    }
    assert SkipEvent(flags, data[4..]) == Some((event, data[offset..]));
    r := PayloadSAMI(gz, data, flags, event, offset);
  }

  method PayloadSAMI(gz: Gzip, data: Bytes, flags: bv8, event: int32, offset: nat) returns (r: Option<Frame>)
    requires 4 <= offset && offset + 4 <= |data|
    requires flags == Low(data[1]) && SkipEvent(flags, data[4..]) == Some((event, data[offset..]))
    ensures r == ParseSAMI(gz, data)
  {
    var body := data[offset..];
    WordBound(data[offset..offset + 4]);
    assert body[..4] == data[offset..offset + 4] && body[4..] == data[offset + 4..];
    var size := Number(data[offset..offset + 4]);
    if size > |data| - (offset + 4) {
      return None;
    }
    var payload := data[offset + 4..offset + 4 + size];
    assert data[offset + 4..][..size] == payload && data[offset + 4..][size..] == data[offset + 4 + size..];
    assert WholeBlock(body) == Some((payload, data[offset + 4 + size..]));
    if Low(data[2]) == COMPRESSION_GZIP && |payload| > 0 {
      payload := gz.decompress(payload).GetOr(payload);
    }
    return Some(Frame(High(data[1]), flags, event, payload));
  }

  /** The receive loop of SAUC: sequence and payload at fixed offsets, no more than the
      limit decompressed. */
  function ParseSAUC(gz: Gzip, data: Bytes): Option<Frame> {
    if |data| < 12 then None
    else BehindSAUC(gz, High(data[1]), Low(data[1]), Low(data[2]), data[8..])
  }

  function BehindSAUC(gz: Gzip, msgType: bv8, flags: bv8, compression: bv8, s: Bytes): Option<Frame> {
    match WholeBlock(s)
    case None => None
    case Some((payload, _)) =>
      if compression != COMPRESSION_GZIP then Some(Frame(msgType, flags, 0, payload))
      else
        match gz.inflate(payload, SAUC_LIMIT)
        case None => None
        case Some(d) => Some(Frame(msgType, flags, 0, d))
  }

  /** Messages shorter than the 32-bit limit, so that `12 + payloadSize` does not wrap. */
  method ReceiveSAUC(gz: Gzip, data: Bytes) returns (r: Option<Frame>)
    requires |data| < MAX_LENGTH
    ensures r == ParseSAUC(gz, data)
  {
    if |data| < 12 {
      return None;
    }
    WordBound(data[8..12]);
    assert data[8..][..4] == data[8..12] && data[8..][4..] == data[12..];
    var payloadSize := Number(data[8..12]);
    if payloadSize > |data| - 12 {
      return None;
    }
    var payload := data[12..12 + payloadSize];
    assert data[12..][..payloadSize] == payload;
    if Low(data[2]) == COMPRESSION_GZIP {
      var d := gz.inflate(payload, SAUC_LIMIT);
      if d.None? {
        return None;
      }
      payload := d.value;
    }
    return Some(Frame(High(data[1]), Low(data[1]), 0, payload));
  }

  // ---- Agreement with the codec ----

  lemma WholeIsDecoded(s: Bytes, e1: CodecError, e2: CodecError)
    ensures WholeBlock(s).Some? ==> DecodeBlock(s, e1, e2) == Ok(WholeBlock(s).value)
    ensures WholeBlock(s).None? && DecodeBlock(s, e1, e2).Ok? ==> DecodeBlock(s, e1, e2).value.1 == []
  {
    if WholeBlock(s).Some? && TakeWord(s).value.0 == 0 {
      var rest := TakeWord(s).value.1;
      assert rest[..0] == [] && rest[0..] == rest;
    }
  }

  predicate OneWordHeader(data: Bytes) {
    |data| >= 4 && Low(data[0]) <= 1 && High(data[1]) != MSG_ERROR
  }

  /** Session start and finish: the only events without an identifier behind them. */
  predicate StartsOrFinishes(event: int32) { event == 1 || event == 2 }

  /** The event in front of s, if the flags and s have one, has an identifier behind it. */
  predicate Identified(flags: bv8, s: Bytes) {
    HasEvent(flags) && TakeWord(s).Some? ==> !StartsOrFinishes(Signed(TakeWord(s).value.0))
  }

  /** Frames for which SAMI's shortcuts are right: no sequence number, and an event, if
      there is one, with a session or connection to skip. */
  predicate ForSAMI(data: Bytes) {
    OneWordHeader(data) && !HasSequence(Low(data[1])) && Identified(Low(data[1]), data[4..])
  }

  /** The payload announced behind the event is there in full. */
  predicate WholePayload(flags: bv8, s: Bytes) {
    DecodeEvent(flags, s).Ok? && WholeBlock(DecodeEvent(flags, s).value.3).Some?
  }

  lemma PlainBodyStart(data: Bytes)
    requires OneWordHeader(data)
    ensures Body(data) == data[4..]
  {
    SmallNibble(Low(data[0]));
  }

  lemma SkipIsDecode(flags: bv8, s: Bytes)
    requires Identified(flags, s)
    ensures var d := DecodeEvent(flags, s);
      if SkipEvent(flags, s).Some?
      then d.Ok? && SkipEvent(flags, s) == Some((d.value.0, d.value.3))
      else d.Err? || d.value.3 == []
  {
    if HasEvent(flags) && TakeWord(s).Some? {
      WholeIsDecoded(TakeWord(s).value.1, ReadSessionIDLength, ReadSessionID);
      WholeIsDecoded(TakeWord(s).value.1, ReadConnectIDLength, ReadConnectID);
    }
  }

  /** On such frames SAMI accepts exactly what the codec accepts and what is complete,
      and reads the same; where the codec reports a broken archive, SAMI keeps it raw. */
  lemma AgreesSAMI(gz: Gzip, data: Bytes)
    requires ForSAMI(data)
    ensures var (flags, r, f) := (Low(data[1]), Decode(gz, data), ParseSAMI(gz, data));
      && (f.Some? <==> (r.Ok? || r.error == GzipDecompress) && WholePayload(flags, data[4..]))
      && (f.Some? && r.Ok? ==> f.value == Frame(r.value.msgType, r.value.flags, r.value.event, r.value.payload))
      && (f.Some? && r.Err? ==> WholeBlock(DecodeEvent(flags, data[4..]).value.3).value.0 == f.value.payload)
  {
    PlainBodyStart(data);
    AgreesBehindSAMI(gz, High(data[1]), Low(data[1]), Low(data[2]), data[4..]);
  }

  lemma AgreesBehindSAMI(gz: Gzip, msgType: bv8, flags: bv8, compression: bv8, s: Bytes)
    requires msgType != MSG_ERROR && !HasSequence(flags) && Identified(flags, s)
    ensures var (r, f) := (DecodeBody(gz, msgType, flags, compression, s), BehindSAMI(gz, msgType, flags, compression, s));
      && (f.Some? <==> (r.Ok? || r.error == GzipDecompress) && WholePayload(flags, s))
      && (f.Some? && r.Ok? ==> f.value == Frame(r.value.msgType, r.value.flags, r.value.event, r.value.payload))
      && (f.Some? && r.Err? ==> WholeBlock(DecodeEvent(flags, s).value.3).value.0 == f.value.payload)
  {
    SkipIsDecode(flags, s);
    var d := DecodeEvent(flags, s);
    if d.Ok? {
      WholeIsDecoded(d.value.3, ReadPayloadSize, ReadPayload);
    }
  }

  /** Exactly when SAMI reads what was printed: of the frames without a sequence number,
      compressed or not, all but session start and finish. Those two have no session on
      the wire, so SAMI takes their payload for one and finds nothing behind it. */
  lemma SAMIReadsPrintedIff(p: Protocol, gz: Gzip, m: Message)
    requires Inverse(gz) && PlainHeader(p) && Canonical(m) && |Carried(p, gz, m)| < MAX_LENGTH
    requires !HasSequence(m.flags)
    ensures var f := ParseSAMI(gz, Encode(p, gz, m));
      && (f == Some(Frame(m.msgType, m.flags, m.event, m.payload)) <==> !(HasEvent(m.flags) && StartsOrFinishes(m.event)))
      && (f.None? <==> HasEvent(m.flags) && StartsOrFinishes(m.event))
      && Decode(gz, Encode(p, gz, m)) == Ok(m)
  {
    var t := Word(Length32(Carried(p, gz, m))) + Carried(p, gz, m);
    RoundTrip(p, gz, m, []);
    assert Encode(p, gz, m) + [] == Encode(p, gz, m);
    PrintedParts(p, gz, m, t);
    ParseBehindHeader(p, gz, m.msgType, m.flags, EventPart(m) + t);
    BehindPrinted(p, gz, m, t);
  }

  lemma PrintedParts(p: Protocol, gz: Gzip, m: Message, t: Bytes)
    requires !HasSequence(m.flags) && t == Word(Length32(Carried(p, gz, m))) + Carried(p, gz, m)
    ensures Encode(p, gz, m) == Header(p, m.msgType, m.flags) + (EventPart(m) + t)
  {
  }

  lemma ParseBehindHeader(p: Protocol, gz: Gzip, msgType: bv8, flags: bv8, body: Bytes)
    requires PlainHeader(p) && msgType < 16 && flags < 16
    ensures ParseSAMI(gz, Header(p, msgType, flags) + body) == BehindSAMI(gz, msgType, flags, p.compression, body)
  {
    HeaderParts(p, msgType, flags, body);
    assert (Header(p, msgType, flags) + body)[4..] == body;
  }

  lemma BehindPrinted(p: Protocol, gz: Gzip, m: Message, t: Bytes)
    requires Inverse(gz) && Canonical(m) && |Carried(p, gz, m)| < MAX_LENGTH
    requires t == Word(Length32(Carried(p, gz, m))) + Carried(p, gz, m)
    ensures BehindSAMI(gz, m.msgType, m.flags, p.compression, EventPart(m) + t)
      == if HasEvent(m.flags) && StartsOrFinishes(m.event) then None
         else Some(Frame(m.msgType, m.flags, m.event, m.payload))
  {
    BlockIsWhole(Carried(p, gz, m));
    if HasEvent(m.flags) && StartsOrFinishes(m.event) {
      SkipPayload(m, t, Carried(p, gz, m));
    } else {
      SkipPrinted(m, t);
    }
  }

  /** An event with a session, or none at all, is skipped up to the payload. */
  lemma SkipPrinted(m: Message, t: Bytes)
    requires Canonical(m) && !(HasEvent(m.flags) && StartsOrFinishes(m.event))
    ensures SkipEvent(m.flags, EventPart(m) + t) == Some((m.event, t))
  {
    if HasEvent(m.flags) {
      var id := m.sessionID;
      WordRoundTrip(Unsigned(m.event), SessionPart(m) + t);
      assert EventPart(m) + t == Word(Unsigned(m.event)) + (SessionPart(m) + t);
      WordRoundTrip(Length32(id), id + t);
      assert SessionPart(m) + t == Word(Length32(id)) + (id + t);
      assert (id + t)[..|id|] == id && (id + t)[|id|..] == t;
    } else {
      assert EventPart(m) + t == t;
    }
  }

  /** Behind a start or finish it is the payload that gets skipped. */
  lemma SkipPayload(m: Message, t: Bytes, carried: Bytes)
    requires HasEvent(m.flags) && StartsOrFinishes(m.event) && WholeBlock(t) == Some((carried, []))
    ensures SkipEvent(m.flags, EventPart(m) + t) == Some((m.event, []))
  {
    WordRoundTrip(Unsigned(m.event), t);
    assert EventPart(m) + t == Word(Unsigned(m.event)) + t;
  }

  lemma BlockIsWhole(s: Bytes)
    requires |s| < MAX_LENGTH
    ensures WholeBlock(Word(Length32(s)) + s) == Some((s, []))
  {
    WordRoundTrip(Length32(s), s);
    assert s[..|s|] == s && s[|s|..] == [];
  }

  /** Frames for which SAUC's fixed offsets are right. */
  predicate ForSAUC(data: Bytes) {
    OneWordHeader(data) && HasSequence(Low(data[1])) && !HasEvent(Low(data[1]))
  }

  /** The payload behind the sequence number is there in full. */
  predicate WholeAt8(data: Bytes) { |data| >= 8 && WholeBlock(data[8..]).Some? }

  /** A compressed frame around no bytes at all. The codec takes it for an empty payload,
      SAUC for a broken archive. */
  predicate EmptyArchive(data: Bytes) {
    WholeAt8(data) && Low(data[2]) == COMPRESSION_GZIP && WholeBlock(data[8..]).value.0 == []
  }

  /** A compressed frame that is damaged, but behind the point where SAUC stops reading. */
  predicate DamagedBehindLimit(gz: Gzip, data: Bytes) {
    && WholeAt8(data) && Low(data[2]) == COMPRESSION_GZIP
    && gz.decompress(WholeBlock(data[8..]).value.0).None?
    && gz.inflate(WholeBlock(data[8..]).value.0, SAUC_LIMIT).Some?
  }

  /** On such frames SAUC accepts exactly what the codec accepts and what is complete,
      iff the frame is no empty archive and not damaged behind the limit. The first only
      the codec accepts, the second only SAUC, as a full 10 MB; whatever both accept they
      read alike, up to the limit. */
  lemma AgreesSAUC(gz: Gzip, data: Bytes)
    requires Reads(gz) && ForSAUC(data)
    ensures var (r, f) := (Decode(gz, data), ParseSAUC(gz, data));
      && ((f.Some? <==> r.Ok? && WholeAt8(data)) <==> !EmptyArchive(data) && !DamagedBehindLimit(gz, data))
      && (f.Some? && r.Ok? ==> f.value == Capped(r.value, Low(data[2])))
      && (EmptyArchive(data) ==> f.None? && r.Ok? && r.value.payload == [])
      && (DamagedBehindLimit(gz, data) ==> f.Some? && |f.value.payload| == SAUC_LIMIT && r == Err(GzipDecompress))
  {
    PlainBodyStart(data);
    if |data| >= 8 {
      assert data[4..][4..] == data[8..];
      AgreesBehindSAUC(gz, High(data[1]), Low(data[1]), Low(data[2]), data[4..]);
    }
  }

  /** The message as SAUC reports it. */
  function Capped(m: Message, compression: bv8): Frame {
    Frame(m.msgType, m.flags, 0,
      if compression == COMPRESSION_GZIP then m.payload[..Min(SAUC_LIMIT, |m.payload|)] else m.payload)
  }

  lemma AgreesBehindSAUC(gz: Gzip, msgType: bv8, flags: bv8, compression: bv8, s: Bytes)
    requires Reads(gz) && msgType != MSG_ERROR && HasSequence(flags) && !HasEvent(flags) && |s| >= 4
    ensures var (r, f, w) :=
        (DecodeBody(gz, msgType, flags, compression, s), BehindSAUC(gz, msgType, flags, compression, s[4..]), WholeBlock(s[4..]));
      && (w.None? ==> f.None?)
      && (w.Some? && compression != COMPRESSION_GZIP ==> r.Ok? && f == Some(Capped(r.value, compression)))
      && (w.Some? && compression == COMPRESSION_GZIP && w.value.0 == [] ==>
            f.None? && r.Ok? && r.value.payload == [])
      && (w.Some? && compression == COMPRESSION_GZIP && w.value.0 != [] ==>
            var d := gz.decompress(w.value.0);
            if d.Some? then r.Ok? && f == Some(Capped(r.value, compression))
            else r == Err(GzipDecompress) && f.Some? == gz.inflate(w.value.0, SAUC_LIMIT).Some?
                 && (f.Some? ==> |f.value.payload| == SAUC_LIMIT))
  {
    WholeIsDecoded(s[4..], ReadPayloadSize, ReadPayload);
  }
}
