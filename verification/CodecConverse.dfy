/** The converse round trip of the frame codec: what parses is what printing its message
    gives, with the bytes behind it, exactly when nothing was made up for missing bytes. */
module CodecConverse {
  import opened Common
  import opened ByteOrder
  import opened ByteBuffer
  import opened DoubaoProtocol
  import opened CodecLaws
  import opened DoubaoVariants
  import opened ServerFrames

  /** The protocol settings a frame's header announces. */
  function Announced(data: Bytes): Protocol
    requires |data| >= 4
  {
    Protocol(High(data[0]), Low(data[0]), Low(data[2]), High(data[2]))
  }

  lemma PackNibbles(b: byte)
    ensures Pack(High(b), Low(b)) == b
  {
    BitsOfNibbles(Bits(b), High(b), Low(b));
    ByteOfBits(b);
  }

  lemma BitsOfNibbles(v: bv8, hi: bv8, lo: bv8)
    requires hi == v >> 4 && lo == v & 0x0f
    ensures (hi << 4) | lo == v
  {
  }

  lemma TakenWord(s: Bytes)
    requires TakeWord(s).Some?
    ensures s == Word(TakeWord(s).value.0) + TakeWord(s).value.1
  {
    BigEndianOfNumber(s[..4]);
    assert s == s[..4] + s[4..];
  }

  lemma TakenBlock(s: Bytes)
    requires WholeBlock(s).Some?
    ensures var (b, rest) := WholeBlock(s).value;
      |b| < MAX_LENGTH && s == Word(Length32(b)) + (b + rest)
  {
    TakenWord(s);
    var (n, t) := TakeWord(s).value;
    var (b, rest) := WholeBlock(s).value;
    assert t == b + rest && |b| == n == Length32(b);
  }

  /** The parts of a message that the parser finds in front of the payload. */
  lemma SequenceConverse(flags: bv8, s: Bytes, m: Message)
    requires DecodeSequence(flags, s).Ok? && m.flags == flags && m.sequence == DecodeSequence(flags, s).value.0
    ensures s == SequencePart(m) + DecodeSequence(flags, s).value.1
  {
    if HasSequence(flags) {
      TakenWord(s);
    }
  }

  /** If anything is left behind the event, its session was there in full. */
  lemma EventConverse(flags: bv8, s: Bytes, m: Message)
    requires DecodeEvent(flags, s).Ok?
    requires DecodeEvent(flags, s).value.3 != [] && !(HasEvent(flags) && IsConnection(m.event))
    requires m.flags == flags && (m.event, m.sessionID) == (DecodeEvent(flags, s).value.0, DecodeEvent(flags, s).value.1)
    ensures s == EventPart(m) + DecodeEvent(flags, s).value.3
  {
    if HasEvent(flags) {
      TakenWord(s);
      var rest := TakeWord(s).value.1;
      if HasSession(m.event) {
        WholeIsDecoded(rest, ReadSessionIDLength, ReadSessionID);
        TakenBlock(rest);
        assert rest == SessionPart(m) + DecodeEvent(flags, s).value.3;
      }
    }
  }

  /** Where the payload starts. */
  function AtPayload(flags: bv8, s: Bytes): Bytes
    requires DecodeSequence(flags, s).Ok? && DecodeEvent(flags, DecodeSequence(flags, s).value.1).Ok?
  {
    DecodeEvent(flags, DecodeSequence(flags, s).value.1).value.3
  }

  lemma FrontConverse(gz: Gzip, msgType: bv8, flags: bv8, compression: bv8, s: Bytes)
    requires msgType != MSG_ERROR
    requires var r := DecodeBody(gz, msgType, flags, compression, s);
      r.Ok? && !(HasEvent(flags) && IsConnection(r.value.event))
    ensures var m := DecodeBody(gz, msgType, flags, compression, s).value;
      && s == SequencePart(m) + (EventPart(m) + AtPayload(flags, s))
      && DecodePayload(gz, compression, AtPayload(flags, s)) == Ok(m.payload)
  {
    var m := DecodeBody(gz, msgType, flags, compression, s).value;
    SequenceConverse(flags, s, m);
    EventConverse(flags, DecodeSequence(flags, s).value.1, m);
  }

  /** The payload block is printed back iff all of it was there; a payload filled up with
      zeros prints longer than what it was read from. */
  lemma PayloadConverse(gz: Gzip, compression: bv8, s: Bytes, payload: Bytes)
    requires compression != COMPRESSION_GZIP && DecodePayload(gz, compression, s) == Ok(payload)
    ensures var block := Word(Length32(payload)) + payload;
      if WholeBlock(s).Some? then block <= s && WholeBlock(s).value.0 == payload else |block| > |s|
  {
    WholeIsDecoded(s, ReadPayloadSize, ReadPayload);
    if WholeBlock(s).Some? {
      TakenBlock(s);
    }
  }

  /** Frames the printer could have written, as far as the header goes. */
  predicate PlainFrame(data: Bytes) {
    OneWordHeader(data) && data[3] == 0 && Low(data[2]) != COMPRESSION_GZIP
  }

  lemma HeaderConverse(data: Bytes)
    requires PlainFrame(data)
    ensures Header(Announced(data), High(data[1]), Low(data[1])) == data[..4]
  {
    PackNibbles(data[0]);
    PackNibbles(data[1]);
    PackNibbles(data[2]);
  }

  lemma DecodesBody(gz: Gzip, data: Bytes)
    requires PlainFrame(data)
    ensures Decode(gz, data) == DecodeBody(gz, High(data[1]), Low(data[1]), Low(data[2]), data[4..])
  {
    PlainBodyStart(data);
  }

  /** The payload announced behind sequence number and event is there in full. */
  predicate PayloadThere(data: Bytes) {
    && |data| >= 4
    && var (flags, s) := (Low(data[1]), data[4..]);
       && DecodeSequence(flags, s).Ok? && DecodeEvent(flags, DecodeSequence(flags, s).value.1).Ok?
       && WholeBlock(AtPayload(flags, s)).Some?
  }

  /** Printing undoes parsing: of every uncompressed frame with a one-word header that
      parses to a message other than an error or a connection event, the printed message
      is a prefix iff the payload was there in full. */
  lemma PrintParsedIff(gz: Gzip, data: Bytes)
    requires PlainFrame(data) && Decode(gz, data).Ok?
    requires HasEvent(Low(data[1])) ==> !IsConnection(Decode(gz, data).value.event)
    ensures Encode(Announced(data), gz, Decode(gz, data).value) <= data <==> PayloadThere(data)
  {
    var m, p := Decode(gz, data).value, Announced(data);
    var flags, s := Low(data[1]), data[4..];
    HeaderConverse(data);
    DecodesBody(gz, data);
    FrontConverse(gz, High(data[1]), flags, Low(data[2]), s);
    PayloadConverse(gz, Low(data[2]), AtPayload(flags, s), m.payload);
    PrintedPrefix(p, gz, m, data, AtPayload(flags, s));
  }

  /** Of a frame whose front is printed alike, the rest decides. */
  lemma PrintedPrefix(p: Protocol, gz: Gzip, m: Message, data: Bytes, rest: Bytes)
    requires p.compression != COMPRESSION_GZIP && |data| >= 4
    requires Header(p, m.msgType, m.flags) == data[..4]
    requires data[4..] == SequencePart(m) + (EventPart(m) + rest)
    ensures Encode(p, gz, m) <= data <==> Word(Length32(m.payload)) + m.payload <= rest
  {
    var front := Header(p, m.msgType, m.flags) + SequencePart(m) + EventPart(m);
    var block := Word(Length32(m.payload)) + m.payload;
    assert data == data[..4] + data[4..];
    assert data == front + rest;
    assert Encode(p, gz, m) == front + block;
    SamePrefix(front, block, rest);
  }

  lemma SamePrefix(front: Bytes, a: Bytes, b: Bytes)
    ensures front + a <= front + b <==> a <= b
  {
    if front + a <= front + b {
      assert a == (front + a)[|front|..] && b == (front + b)[|front|..];
      assert (front + b)[..|front + a|] == front + a;
      assert b[..|a|] == (front + b)[..|front + a|][|front|..];
    }
  }

  // ---- Every frame that parses ----

  lemma CarriedSequence(m: Message, s: Bytes)
    requires DecodeSequence(m.flags, s).Ok? && m.sequence == DecodeSequence(m.flags, s).value.0
    ensures s == SequenceBytes(m) + DecodeSequence(m.flags, s).value.1
    ensures m.flags & 3 == 0 ==> m.sequence == 0
  {
    FlagBits(m.flags);
    SequenceConverse(m.flags, s, m);
  }

  /** Which fields the event leaves empty. */
  lemma EventFields(m: Message, s: Bytes)
    requires DecodeEvent(m.flags, s).Ok?
    requires var d := DecodeEvent(m.flags, s).value; (m.event, m.sessionID, m.connectID) == (d.0, d.1, d.2)
    ensures !HasEvent(m.flags) ==> m.event == 0 && m.sessionID == [] && m.connectID == []
    ensures !HasSession(m.event) ==> m.sessionID == []
    ensures !IsConnection(m.event) ==> m.connectID == []
  {
  }

  lemma SignedBack(n: uint32)
    ensures Unsigned(Signed(n)) == n
  {
  }

  lemma EventWord(m: Message, s: Bytes) returns (t: Bytes)
    requires HasEvent(m.flags) && DecodeEvent(m.flags, s).Ok? && DecodeEvent(m.flags, s).value.0 == m.event
    ensures s == Word(Unsigned(m.event)) + t
  {
    TakenWord(s);
    SignedBack(TakeWord(s).value.0);
    t := TakeWord(s).value.1;
  }

  lemma CarriedEvent(m: Message, s: Bytes, rest: Bytes)
    requires DecodeEvent(m.flags, s) == Ok((m.event, m.sessionID, m.connectID, rest)) && rest != []
    ensures s == EventBytes(m) + rest
    ensures |m.sessionID| < MAX_LENGTH && |m.connectID| < MAX_LENGTH
  {
    FlagBits(m.flags);
    EventFields(m, s);
    if HasEvent(m.flags) {
      var t := EventWord(m, s);
      IdentifierConverse(m, t, rest);
      assert Word(Unsigned(m.event)) + (IdentifierBytes(m) + rest) == Word(Unsigned(m.event)) + IdentifierBytes(m) + rest;
    }
  }

  lemma IdentifierConverse(m: Message, s: Bytes, rest: Bytes)
    requires HasEvent(m.flags) && rest != []
    requires DecodeEvent(m.flags, Word(Unsigned(m.event)) + s) == Ok((m.event, m.sessionID, m.connectID, rest))
    ensures s == IdentifierBytes(m) + rest
    ensures |m.sessionID| < MAX_LENGTH && |m.connectID| < MAX_LENGTH
  {
    WordRoundTrip(Unsigned(m.event), s);
    EventFields(m, Word(Unsigned(m.event)) + s);
    if HasSession(m.event) {
      DecodedBlock(s, m.sessionID, rest, ReadSessionIDLength, ReadSessionID);
    } else if IsConnection(m.event) {
      DecodedBlock(s, m.connectID, rest, ReadConnectIDLength, ReadConnectID);
    }
  }

  /** A block with something behind it was there in full. */
  lemma DecodedBlock(s: Bytes, id: Bytes, rest: Bytes, e1: CodecError, e2: CodecError)
    requires DecodeBlock(s, e1, e2) == Ok((id, rest)) && rest != []
    ensures s == Block(id) + rest && |id| < MAX_LENGTH
  {
    WholeIsDecoded(s, e1, e2);
    TakenBlock(s);
  }

  lemma CarriedCode(m: Message, s: Bytes)
    requires DecodeErrorCode(m.msgType, s).Ok? && m.errorCode == DecodeErrorCode(m.msgType, s).value.0
    ensures s == CodeBytes(m) + DecodeErrorCode(m.msgType, s).value.1
    ensures m.msgType != 15 ==> m.errorCode == 0
  {
    if m.msgType == 15 {
      TakenWord(s);
    }
  }

  /** The payload of a frame that parses, as far as the frame has it: what DecodePayload
      gets to see. */
  function PayloadIn(msgType: bv8, flags: bv8, s: Bytes): Bytes
    requires DecodeSequence(flags, s).Ok?
    requires DecodeEvent(flags, DecodeSequence(flags, s).value.1).Ok?
    requires DecodeErrorCode(msgType, DecodeEvent(flags, DecodeSequence(flags, s).value.1).value.3).Ok?
  {
    DecodeErrorCode(msgType, DecodeEvent(flags, DecodeSequence(flags, s).value.1).value.3).value.1
  }

  lemma BodyConverse(gz: Gzip, m: Message, compression: bv8, s: Bytes)
    requires DecodeBody(gz, m.msgType, m.flags, compression, s) == Ok(m) && m.msgType < 16 && m.flags < 16
    ensures Carriable(m)
    ensures var s3 := PayloadIn(m.msgType, m.flags, s);
      && s == SequenceBytes(m) + (EventBytes(m) + (CodeBytes(m) + s3))
      && DecodePayload(gz, compression, s3) == Ok(m.payload)
  {
    var s1 := DecodeSequence(m.flags, s).value.1;
    var s2 := DecodeEvent(m.flags, s1).value.3;
    CarriedSequence(m, s);
    EventFields(m, s1);
    CarriedEvent(m, s1, s2);
    FlagBits(m.flags);
    CarriedCode(m, s2);
  }

  /** Every frame whatever that parses, errors, connection events, compressed payloads and
      long headers included, and whose payload was there in full, is the layout of the
      message it parses to, behind its header and in front of the rest. */
  lemma ParsedIsLaidOut(gz: Gzip, data: Bytes) returns (head: Bytes, carried: Bytes, rest: Bytes)
    requires Decode(gz, data).Ok?
    requires WholeBlock(PayloadIn(High(data[1]), Low(data[1]), Body(data))).Some?
    ensures var m := Decode(gz, data).value;
      && data == head + (Layout(m, carried) + rest)
      && Heads(head, m, Low(data[2])) && Carriable(m) && Travels(gz, Low(data[2]), carried, m.payload)
  {
    var m, body := Decode(gz, data).value, Body(data);
    NibbleBound(data[1]);
    DecodedBody(gz, data);
    carried, rest := BodyIsLaidOut(gz, m, Low(data[2]), body);
    assert |body| >= |Layout(m, carried)| >= 4;
    head := HeadOf(data);
  }

  lemma DecodedBody(gz: Gzip, data: Bytes)
    requires Decode(gz, data).Ok?
    ensures var m := Decode(gz, data).value;
      && m.msgType == High(data[1]) && m.flags == Low(data[1])
      && DecodeBody(gz, m.msgType, m.flags, Low(data[2]), Body(data)) == Ok(m)
  {
    BodyKeepsType(gz, High(data[1]), Low(data[1]), Low(data[2]), Body(data));
  }

  lemma BodyIsLaidOut(gz: Gzip, m: Message, compression: bv8, body: Bytes) returns (carried: Bytes, rest: Bytes)
    requires DecodeBody(gz, m.msgType, m.flags, compression, body) == Ok(m) && m.msgType < 16 && m.flags < 16
    requires WholeBlock(PayloadIn(m.msgType, m.flags, body)).Some?
    ensures body == Layout(m, carried) + rest && Carriable(m) && Travels(gz, compression, carried, m.payload)
  {
    BodyConverse(gz, m, compression, body);
    var s3 := PayloadIn(m.msgType, m.flags, body);
    carried, rest := PayloadLaidOut(gz, compression, s3, m.payload);
    LayoutAndRest(m, carried, rest);
  }

  lemma PayloadLaidOut(gz: Gzip, compression: bv8, s: Bytes, payload: Bytes) returns (carried: Bytes, rest: Bytes)
    requires DecodePayload(gz, compression, s) == Ok(payload) && WholeBlock(s).Some?
    ensures s == Block(carried) + rest && Travels(gz, compression, carried, payload)
  {
    TakenBlock(s);
    WholeIsDecoded(s, ReadPayloadSize, ReadPayload);
    carried, rest := WholeBlock(s).value.0, WholeBlock(s).value.1;
  }

  /** What the parser takes for the header. */
  lemma HeadOf(data: Bytes) returns (head: Bytes)
    requires |data| >= 4 && Body(data) != []
    ensures data == head + Body(data) && |head| >= 4 && head[..4] == data[..4]
    ensures |head| == if Low(data[0]) <= 1 then 4 else 4 * Low(data[0]) as nat
  {
    SizeOf(Low(data[0]));
    head := data[..|data| - |Body(data)|];
  }

  // ---- What the hand-written parsers take ----

  /** The identifier that SAMI skips, whatever the event. */
  function Skipped(flags: bv8, event: int32, id: Bytes): Bytes {
    if HasEvent(flags) then Word(Unsigned(event)) + Block(id) else []
  }

  /** What SAMI makes of a payload as it travels: a broken archive stays as it is. */
  function Unpacked(gz: Gzip, compression: bv8, carried: Bytes): Bytes {
    if compression == 1 && carried != [] then gz.decompress(carried).GetOr(carried) else carried
  }

  /** Everything of this layout is taken, for any type, flags, event and header size nibble:
      the four header bytes, an event with one identifier if the flags have one, a payload
      block, and anything behind it. */
  lemma SAMITakes(gz: Gzip, head: Bytes, event: int32, id: Bytes, carried: Bytes, rest: Bytes)
    requires |head| == 4 && |id| < MAX_LENGTH && |carried| < MAX_LENGTH
    requires !HasEvent(Low(head[1])) ==> event == 0
    ensures ParseSAMI(gz, head + (Skipped(Low(head[1]), event, id) + (Block(carried) + rest)))
      == Some(Frame(High(head[1]), Low(head[1]), event, Unpacked(gz, Low(head[2]), carried)))
  {
    var flags, t := Low(head[1]), Block(carried) + rest;
    var data := head + (Skipped(flags, event, id) + t);
    assert data[..4] == head && data[4..] == Skipped(flags, event, id) + t;
    SkippedEvent(flags, event, id, t);
    BlockTaken(carried, rest);
  }

  lemma BlockTaken(s: Bytes, rest: Bytes)
    requires |s| < MAX_LENGTH
    ensures WholeBlock(Block(s) + rest) == Some((s, rest))
  {
    assert Block(s) + rest == Word(Length32(s)) + (s + rest);
    WordRoundTrip(Length32(s), s + rest);
    assert (s + rest)[..|s|] == s && (s + rest)[|s|..] == rest;
  }

  lemma SkippedEvent(flags: bv8, event: int32, id: Bytes, t: Bytes)
    requires |id| < MAX_LENGTH && (!HasEvent(flags) ==> event == 0)
    ensures SkipEvent(flags, Skipped(flags, event, id) + t) == Some((event, t))
  {
    if HasEvent(flags) {
      assert Skipped(flags, event, id) + t == Word(Unsigned(event)) + (Block(id) + t);
      WordRoundTrip(Unsigned(event), Block(id) + t);
      BlockTaken(id, t);
    } else {
      assert Skipped(flags, event, id) + t == t;
    }
  }

  /** And nothing else is. */
  lemma SAMITakesOnly(gz: Gzip, data: Bytes) returns (head: Bytes, event: int32, id: Bytes, carried: Bytes, rest: Bytes)
    requires ParseSAMI(gz, data).Some?
    ensures |head| == 4 && |id| < MAX_LENGTH && |carried| < MAX_LENGTH
    ensures !HasEvent(Low(head[1])) ==> event == 0
    ensures data == head + (Skipped(Low(head[1]), event, id) + (Block(carried) + rest))
  {
    head := data[..4];
    var s := data[4..];
    event, id := SkippedOnly(Low(data[1]), s);
    carried, rest := BlockOnly(SkipEvent(Low(data[1]), s).value.1);
    assert data == head + s;
  }

  lemma BlockOnly(t: Bytes) returns (carried: Bytes, rest: Bytes)
    requires WholeBlock(t).Some?
    ensures t == Block(carried) + rest && |carried| < MAX_LENGTH && (carried, rest) == WholeBlock(t).value
  {
    TakenBlock(t);
    carried, rest := WholeBlock(t).value.0, WholeBlock(t).value.1;
  }

  lemma SkippedOnly(flags: bv8, s: Bytes) returns (event: int32, id: Bytes)
    requires SkipEvent(flags, s).Some?
    ensures |id| < MAX_LENGTH && (!HasEvent(flags) ==> event == 0)
    ensures s == Skipped(flags, event, id) + SkipEvent(flags, s).value.1
  {
    event, id := SkipEvent(flags, s).value.0, [];
    if HasEvent(flags) {
      var t := TakeWord(s).value.1;
      TakenWord(s);
      SignedBack(TakeWord(s).value.0);
      var rest;
      id, rest := BlockOnly(t);
      assert s == Word(Unsigned(event)) + (Block(id) + rest);
    }
  }

  /** SAUC takes a message iff it is four header bytes, four more of any value, a payload
      block whose archive, if it is one, can be read up to the limit, and anything behind. */
  lemma SAUCTakes(gz: Gzip, head: Bytes, carried: Bytes, rest: Bytes)
    requires |head| == 8 && |carried| < MAX_LENGTH
    ensures var f := ParseSAUC(gz, head + (Block(carried) + rest));
      if Low(head[2]) != 1 then f == Some(Frame(High(head[1]), Low(head[1]), 0, carried))
      else
        var d := gz.inflate(carried, 10_485_760);
        f == if d.None? then None else Some(Frame(High(head[1]), Low(head[1]), 0, d.value))
  {
    var data := head + (Block(carried) + rest);
    assert data[..8] == head && data[8..] == Block(carried) + rest;
    BlockTaken(carried, rest);
  }

  lemma SAUCTakesOnly(gz: Gzip, data: Bytes) returns (head: Bytes, carried: Bytes, rest: Bytes)
    requires ParseSAUC(gz, data).Some?
    ensures |head| == 8 && |carried| < MAX_LENGTH && data == head + (Block(carried) + rest)
  {
    head := data[..8];
    carried, rest := BlockOnly(data[8..]);
    assert data == head + data[8..];
  }
}
