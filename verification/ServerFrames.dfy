/** Frames as the speech servers lay them out: with error codes, connection identifiers
    and longer headers, which the printer never writes. What the parser makes of them,
    and of what is left when they are cut short. */
module ServerFrames {
  import opened Common
  import opened ByteOrder
  import opened ByteBuffer
  import opened DoubaoProtocol
  import opened CodecLaws

  /** The wire form of a word, most significant byte first. */
  lemma WordBytes(n: uint32)
    ensures Word(n) == [n / 0x100_0000, n / 0x1_0000 % 256, n / 0x100 % 256, n % 256]
  {
    var k := 4;
    assert BigEndian(n, k) == BigEndian(n / 256, k - 1) + [n % 256];
    assert BigEndian(n / 256, k - 1) == BigEndian(n / 256 / 256, k - 2) + [n / 256 % 256];
    assert BigEndian(n / 256 / 256, k - 2) == BigEndian(n / 256 / 256 / 256, k - 3) + [n / 256 / 256 % 256];
    assert BigEndian(n / 256 / 256 / 256, k - 3) == BigEndian(n / 256 / 256 / 256 / 256, k - 4) + [n / 256 / 256 / 256 % 256];
  }

  function Block(s: Bytes): Bytes { Word(Length32(s)) + s }

  // ---- The layout, part by part ----

  function SequenceBytes(m: Message): Bytes { if m.flags & 3 != 0 then Word(Unsigned(m.sequence)) else [] }

  /** Events 1 and 2 stand alone, events 50 to 52 name their connection, all others their
      session. */
  function IdentifierBytes(m: Message): Bytes {
    if m.event == 1 || m.event == 2 then []
    else if 50 <= m.event <= 52 then Block(m.connectID)
    else Block(m.sessionID)
  }

  function EventBytes(m: Message): Bytes {
    if m.flags & 4 != 0 then Word(Unsigned(m.event)) + IdentifierBytes(m) else []
  }

  function CodeBytes(m: Message): Bytes { if m.msgType == 15 then Word(m.errorCode) else [] }

  function Layout(m: Message, carried: Bytes): Bytes {
    SequenceBytes(m) + (EventBytes(m) + (CodeBytes(m) + Block(carried)))
  }

  /** Messages a frame can carry: nothing in the fields that type, flags and event leave out. */
  predicate Carriable(m: Message) {
    && m.msgType < 16 && m.flags < 16
    && (m.flags & 3 == 0 ==> m.sequence == 0)
    && (m.flags & 4 == 0 ==> m.event == 0 && m.sessionID == [] && m.connectID == [])
    && (m.event == 1 || m.event == 2 || 50 <= m.event <= 52 ==> m.sessionID == [])
    && (!(50 <= m.event <= 52) ==> m.connectID == [])
    && |m.sessionID| < MAX_LENGTH && |m.connectID| < MAX_LENGTH
    && (m.msgType != 15 ==> m.errorCode == 0)
  }

  /** How the payload travels under a compression code. */
  predicate Travels(gz: Gzip, compression: bv8, carried: Bytes, payload: Bytes) {
    && |carried| < MAX_LENGTH
    && if compression == 1 && carried != [] then gz.decompress(carried) == Some(payload) else carried == payload
  }

  lemma FlagBits(flags: bv8)
    ensures flags & 3 != 0 <==> HasSequence(flags)
    ensures flags & 4 != 0 <==> HasEvent(flags)
  {
  }

  lemma SequenceReads(m: Message, t: Bytes)
    requires Carriable(m)
    ensures DecodeSequence(m.flags, SequenceBytes(m) + t) == Ok((m.sequence, t))
  {
    FlagBits(m.flags);
    if HasSequence(m.flags) {
      WordRoundTrip(Unsigned(m.sequence), t);
    } else {
      assert SequenceBytes(m) + t == t;
    }
  }

  lemma EventReads(m: Message, t: Bytes)
    requires Carriable(m)
    ensures DecodeEvent(m.flags, EventBytes(m) + t) == Ok((m.event, m.sessionID, m.connectID, t))
  {
    FlagBits(m.flags);
    if HasEvent(m.flags) {
      assert EventBytes(m) + t == Word(Unsigned(m.event)) + (IdentifierBytes(m) + t);
      WordRoundTrip(Unsigned(m.event), IdentifierBytes(m) + t);
      if HasSession(m.event) {
        BlockRoundTrip(m.sessionID, t, ReadSessionIDLength, ReadSessionID);
      } else if IsConnection(m.event) {
        BlockRoundTrip(m.connectID, t, ReadConnectIDLength, ReadConnectID);
      } else {
        assert IdentifierBytes(m) + t == t;
      }
    } else {
      assert EventBytes(m) + t == t;
    }
  }

  lemma CodeReads(m: Message, t: Bytes)
    requires Carriable(m)
    ensures DecodeErrorCode(m.msgType, CodeBytes(m) + t) == Ok((m.errorCode, t))
  {
    if m.msgType == 15 {
      WordRoundTrip(m.errorCode, t);
    } else {
      assert CodeBytes(m) + t == t;
    }
  }

  lemma PayloadReads(gz: Gzip, compression: bv8, carried: Bytes, payload: Bytes, t: Bytes)
    requires Travels(gz, compression, carried, payload)
    ensures DecodePayload(gz, compression, Block(carried) + t) == Ok(payload)
  {
    BlockRoundTrip(carried, t, ReadPayloadSize, ReadPayload);
  }

  lemma BodyReads(gz: Gzip, m: Message, compression: bv8, carried: Bytes, rest: Bytes)
    requires Carriable(m) && Travels(gz, compression, carried, m.payload)
    ensures DecodeBody(gz, m.msgType, m.flags, compression, Layout(m, carried) + rest) == Ok(m)
  {
    var t2 := CodeBytes(m) + (Block(carried) + rest);
    LayoutAndRest(m, carried, rest);
    BehindSequence(gz, m, compression, EventBytes(m) + t2);
    BehindEvent(gz, m, compression, t2);
    CodeReads(m, Block(carried) + rest);
    PayloadReads(gz, compression, carried, m.payload, rest);
  }

  lemma LayoutAndRest(m: Message, carried: Bytes, rest: Bytes)
    ensures Layout(m, carried) + rest
      == SequenceBytes(m) + (EventBytes(m) + (CodeBytes(m) + (Block(carried) + rest)))
  {
  }

  // ---- Whole frames ----

  /** The bytes in front of the body: four, and as many words more as the header size
      announces beyond the first. */
  predicate Heads(head: Bytes, m: Message, compression: bv8) {
    && |head| >= 4
    && |head| == (if Low(head[0]) <= 1 then 4 else 4 * Low(head[0]) as nat)
    && High(head[1]) == m.msgType && Low(head[1]) == m.flags && Low(head[2]) == compression
  }

  lemma BodyBehind(head: Bytes, m: Message, compression: bv8, t: Bytes)
    requires Heads(head, m, compression)
    ensures Body(head + t) == t
  {
    SizeOf(Low(head[0]));
    var data := head + t;
    assert data[..4] == head[..4];
    assert data[4..] == head[4..] + t;
  }

  lemma SizeOf(b: bv8)
    ensures b <= 1 <==> b as nat <= 1
  {
  }

  /** Everything a server can lay out is read as it is meant: error codes and connection
      identifiers included, behind a header of any size, compressed or not, and whatever
      follows the frame. */
  lemma ServerFrameReads(gz: Gzip, m: Message, head: Bytes, compression: bv8, carried: Bytes, rest: Bytes)
    requires Heads(head, m, compression) && Carriable(m) && Travels(gz, compression, carried, m.payload)
    ensures Decode(gz, head + (Layout(m, carried) + rest)) == Ok(m)
  {
    BodyBehind(head, m, compression, Layout(m, carried) + rest);
    BodyReads(gz, m, compression, carried, rest);
  }

  /** The printer writes this layout iff the message is no error and has no connection
      event with an identifier to write. */
  lemma PrinterIsLayoutIff(p: Protocol, gz: Gzip, m: Message)
    requires Carriable(m)
    ensures Encode(p, gz, m) == Header(p, m.msgType, m.flags) + Layout(m, Carried(p, gz, m)) <==>
      m.msgType != 15 && !(m.flags & 4 != 0 && 50 <= m.event <= 52)
  {
    var c := Carried(p, gz, m);
    var (front, printed, laid) := (
      Header(p, m.msgType, m.flags) + SequencePart(m), EventPart(m) + Block(c), EventBytes(m) + (CodeBytes(m) + Block(c)));
    PrintedParts(p, gz, m);
    SameBehind(front, printed, laid);
    EventPrintedIff(m, Block(c));
  }

  lemma PrintedParts(p: Protocol, gz: Gzip, m: Message)
    ensures var (front, c) := (Header(p, m.msgType, m.flags) + SequencePart(m), Carried(p, gz, m));
      && Encode(p, gz, m) == front + (EventPart(m) + Block(c))
      && Header(p, m.msgType, m.flags) + Layout(m, c) == front + (EventBytes(m) + (CodeBytes(m) + Block(c)))
  {
    FlagBits(m.flags);
  }

  lemma SameBehind(front: Bytes, a: Bytes, b: Bytes)
    ensures front + a == front + b <==> a == b
  {
    assert a == (front + a)[|front|..] && b == (front + b)[|front|..];
  }

  lemma EventPrintedIff(m: Message, t: Bytes)
    requires Carriable(m)
    ensures EventPart(m) + t == EventBytes(m) + (CodeBytes(m) + t) <==>
      m.msgType != 15 && !(m.flags & 4 != 0 && 50 <= m.event <= 52)
  {
    FlagBits(m.flags);
    if m.msgType != 15 {
      assert CodeBytes(m) + t == t;
    }
    if m.flags & 4 != 0 && 50 <= m.event <= 52 {
      assert |EventBytes(m)| >= |EventPart(m)| + 4;
    } else {
      assert EventBytes(m) == EventPart(m);
    }
    assert |EventBytes(m) + (CodeBytes(m) + t)| == |EventBytes(m)| + |CodeBytes(m)| + |t|;
  }

  // ---- Cut short ----

  lemma SequenceCut(m: Message, k: nat)
    requires k < |SequenceBytes(m)|
    ensures DecodeSequence(m.flags, SequenceBytes(m)[..k]) == Err(ReadSequence)
  {
    FlagBits(m.flags);
  }

  /** Cut inside the event: the error names the part cut off; cut inside the identifier,
      the event is accepted and nothing is left. */
  lemma EventCut(m: Message, k: nat)
    requires Carriable(m) && k < |EventBytes(m)|
    ensures var d := DecodeEvent(m.flags, EventBytes(m)[..k]);
      if k < 4 then d == Err(ReadEvent)
      else if k < 8 then d == Err(if 50 <= m.event <= 52 then ReadConnectIDLength else ReadSessionIDLength)
      else if k == 8 then d == Err(if 50 <= m.event <= 52 then ReadConnectID else ReadSessionID)
      else d.Ok? && d.value.0 == m.event && d.value.3 == []
  {
    FlagBits(m.flags);
    if k >= 4 {
      var ids := IdentifierBytes(m);
      CutWord(Unsigned(m.event), ids, k);
      if HasSession(m.event) {
        CutBlock(m.sessionID, k - 4, ReadSessionIDLength, ReadSessionID);
      } else {
        CutBlock(m.connectID, k - 4, ReadConnectIDLength, ReadConnectID);
      }
    }
  }

  /** Where the layout is cut decides the verdict. */
  function CutVerdict(m: Message, carried: Bytes, k: nat): Result<Message, CodecError>
    requires k < |Layout(m, carried)|
  {
    var (a, b, c) := (|SequenceBytes(m)|, |EventBytes(m)|, |CodeBytes(m)|);
    var connects := 50 <= m.event <= 52;
    if k < a then Err(ReadSequence)
    else if k < a + b && k < a + 4 then Err(ReadEvent)
    else if k < a + b && k < a + 8 then Err(if connects then ReadConnectIDLength else ReadSessionIDLength)
    else if k < a + b && k == a + 8 then Err(if connects then ReadConnectID else ReadSessionID)
    else if k < a + b + c then Err(if m.msgType == 15 then ReadErrorCode else ReadPayloadSize)
    else if k < a + b + c + 4 then Err(ReadPayloadSize)
    else if k == a + b + c + 4 then Err(ReadPayload)
    else Ok(m.(payload := ZeroFilled(carried, k - (a + b + c + 4))))
  }

  /** Of an uncompressed frame cut anywhere behind its header the parser says which part is
      missing, or, once it has a byte of the payload, accepts it with zeros for the rest. */
  lemma CutServerFrame(gz: Gzip, m: Message, head: Bytes, compression: bv8, carried: Bytes, k: nat)
    requires Heads(head, m, compression) && compression != 1
    requires Carriable(m) && carried == m.payload && |carried| < MAX_LENGTH && k < |Layout(m, carried)|
    ensures Decode(gz, head + Layout(m, carried)[..k]) == CutVerdict(m, carried, k)
  {
    BodyBehind(head, m, compression, Layout(m, carried)[..k]);
    CutBody(gz, m, compression, carried, k);
  }

  lemma CutBody(gz: Gzip, m: Message, compression: bv8, carried: Bytes, k: nat)
    requires compression != 1 && Carriable(m) && carried == m.payload && |carried| < MAX_LENGTH
    requires k < |Layout(m, carried)|
    ensures DecodeBody(gz, m.msgType, m.flags, compression, Layout(m, carried)[..k]) == CutVerdict(m, carried, k)
  {
    var a, rest := |SequenceBytes(m)|, EventBytes(m) + (CodeBytes(m) + Block(carried));
    if k < a {
      SequenceCut(m, k);
      assert Layout(m, carried)[..k] == SequenceBytes(m)[..k];
    } else {
      CutBehind(SequenceBytes(m), rest, k);
      BehindSequence(gz, m, compression, rest[..k - a]);
      CutBehindSequence(gz, m, compression, carried, rest, k - a);
    }
  }

  lemma BehindSequence(gz: Gzip, m: Message, compression: bv8, t: Bytes)
    requires Carriable(m)
    ensures DecodeBody(gz, m.msgType, m.flags, compression, SequenceBytes(m) + t) == AfterEvent(gz, m, compression, t)
  {
    SequenceReads(m, t);
  }

  /** The same behind the sequence number, as a verdict on what DecodeEvent leaves. */
  lemma CutBehindSequence(gz: Gzip, m: Message, compression: bv8, carried: Bytes, rest: Bytes, k: nat)
    requires compression != 1 && Carriable(m) && carried == m.payload && |carried| < MAX_LENGTH
    requires rest == EventBytes(m) + (CodeBytes(m) + Block(carried)) && k < |rest|
    ensures AfterEvent(gz, m, compression, rest[..k]) == CutVerdict(m, carried, |SequenceBytes(m)| + k)
  {
    var b, t := |EventBytes(m)|, CodeBytes(m) + Block(carried);
    if k < b {
      assert rest[..k] == EventBytes(m)[..k];
      CutInEvent(gz, m, compression, carried, k);
    } else {
      CutBehind(EventBytes(m), t, k);
      BehindEvent(gz, m, compression, t[..k - b]);
      CutBehindEvent(gz, m, compression, carried, k - b);
    }
  }

  lemma BehindEvent(gz: Gzip, m: Message, compression: bv8, t: Bytes)
    requires Carriable(m)
    ensures AfterEvent(gz, m, compression, EventBytes(m) + t) == AfterCode(gz, m, compression, t)
  {
    EventReads(m, t);
  }

  lemma CutInEvent(gz: Gzip, m: Message, compression: bv8, carried: Bytes, k: nat)
    requires Carriable(m) && k < |EventBytes(m)|
    ensures AfterEvent(gz, m, compression, EventBytes(m)[..k]) == CutVerdict(m, carried, |SequenceBytes(m)| + k)
  {
    EventCut(m, k);
    var d := DecodeEvent(m.flags, EventBytes(m)[..k]);
    if d.Ok? {
      NothingLeft(gz, m, compression);
      assert k > 8;
    }
  }

  lemma NothingLeft(gz: Gzip, m: Message, compression: bv8)
    ensures AfterCode(gz, m, compression, []) == Err(if m.msgType == 15 then ReadErrorCode else ReadPayloadSize)
  {
  }

  /** The parser from the event on, the sequence number read. */
  function AfterEvent(gz: Gzip, m: Message, compression: bv8, s: Bytes): Result<Message, CodecError> {
    var (event, sessionID, connectID, s) :- DecodeEvent(m.flags, s);
    var (errorCode, s) :- DecodeErrorCode(m.msgType, s);
    var payload :- DecodePayload(gz, compression, s);
    Ok(Message(m.msgType, m.flags, event, sessionID, connectID, m.sequence, errorCode, payload))
  }

  /** And from the error code on. */
  function AfterCode(gz: Gzip, m: Message, compression: bv8, s: Bytes): Result<Message, CodecError> {
    var (errorCode, s) :- DecodeErrorCode(m.msgType, s);
    var payload :- DecodePayload(gz, compression, s);
    Ok(m.(errorCode := errorCode, payload := payload))
  }

  lemma CutBehindEvent(gz: Gzip, m: Message, compression: bv8, carried: Bytes, k: nat)
    requires compression != 1 && Carriable(m) && carried == m.payload && |carried| < MAX_LENGTH
    requires k < |CodeBytes(m) + Block(carried)|
    ensures AfterCode(gz, m, compression, (CodeBytes(m) + Block(carried))[..k])
      == CutVerdict(m, carried, |SequenceBytes(m)| + |EventBytes(m)| + k)
  {
    var c := |CodeBytes(m)|;
    if k < c {
      assert |(CodeBytes(m) + Block(carried))[..k]| < 4;
    } else {
      CutBehind(CodeBytes(m), Block(carried), k);
      CodeReads(m, Block(carried)[..k - c]);
      CutBlock(carried, k - c, ReadPayloadSize, ReadPayload);
    }
  }
}
