/** Laws of the frame codec: parsing undoes printing, exactly when; frames delimit
    themselves; and what becomes of frames that are cut short. */
module CodecLaws {
  import opened Common
  import opened ByteOrder
  import opened ByteBuffer
  import opened DoubaoProtocol

  const MAX_LENGTH := 0x1_0000_0000

  /** One header word, and a compression code that fits its nibble. */
  predicate PlainHeader(p: Protocol) {
    p.headerSize & 0x0f <= 1 && p.compression < 16
  }

  /** Messages the printer can express: nibble-sized type and flags, no error, no
      connection event, and nothing in the fields the flags leave out. */
  predicate Canonical(m: Message) {
    && m.msgType < 16 && m.flags < 16 && m.msgType != MSG_ERROR
    && (!HasSequence(m.flags) ==> m.sequence == 0)
    && (if HasEvent(m.flags) then !IsConnection(m.event) else m.event == 0)
    && ((HasEvent(m.flags) && HasSession(m.event)) || m.sessionID == [])
    && |m.sessionID| < MAX_LENGTH && m.connectID == [] && m.errorCode == 0
  }

  // ---- One part at a time ----

  lemma HeaderParts(p: Protocol, msgType: bv8, flags: bv8, t: Bytes)
    requires PlainHeader(p)
    ensures var data := Header(p, msgType, flags) + t;
      && Low(data[1]) < 16 && High(data[1]) < 16
      && (msgType < 16 && flags < 16 ==> High(data[1]) == msgType && Low(data[1]) == flags)
      && Low(data[2]) == p.compression
      && Body(data) == t
  {
    var data := Header(p, msgType, flags) + t;
    assert data[4..] == t;
    Nibbles(p.version, p.headerSize);
    Nibbles(msgType, flags);
    Nibbles(p.serialization, p.compression);
    NibbleBound(data[1]);
    SmallNibble(Low(data[0]));
  }

  lemma Nibbles(hi: bv8, lo: bv8)
    ensures Low(Pack(hi, lo)) == lo & 0x0f
    ensures hi < 16 && lo < 16 ==> High(Pack(hi, lo)) == hi
    ensures lo < 16 ==> lo & 0x0f == lo
  {
    OctetBits((hi << 4) | lo);
    BitNibbles(hi, lo);
  }

  lemma BitNibbles(hi: bv8, lo: bv8)
    ensures ((hi << 4) | lo) & 0x0f == lo & 0x0f
    ensures hi < 16 && lo < 16 ==> ((hi << 4) | lo) >> 4 == hi
    ensures lo < 16 ==> lo & 0x0f == lo
  {
  }

  lemma NibbleBound(b: byte)
    ensures High(b) < 16 && Low(b) < 16
  {
  }

  lemma SmallNibble(b: bv8)
    requires b <= 1
    ensures b as nat <= 1
  {
  }

  lemma SequenceRoundTrip(m: Message, t: Bytes)
    ensures DecodeSequence(m.flags, SequencePart(m) + t)
      == Ok((if HasSequence(m.flags) then m.sequence else 0, t))
  {
    if HasSequence(m.flags) {
      WordRoundTrip(Unsigned(m.sequence), t);
    } else {
      assert SequencePart(m) + t == t;
    }
  }

  lemma BlockRoundTrip(s: Bytes, t: Bytes, e1: CodecError, e2: CodecError)
    requires |s| < MAX_LENGTH
    ensures DecodeBlock(Word(Length32(s)) + s + t, e1, e2) == Ok((s, t))
  {
    assert Word(Length32(s)) + s + t == Word(Length32(s)) + (s + t);
    WordRoundTrip(Length32(s), s + t);
    BlockBehind(Word(Length32(s)) + s + t, s, t, e1, e2);
  }

  lemma BlockBehind(w: Bytes, s: Bytes, t: Bytes, e1: CodecError, e2: CodecError)
    requires TakeWord(w).Some? && TakeWord(w).value.0 == |s| && TakeWord(w).value.1 == s + t
    ensures DecodeBlock(w, e1, e2) == Ok((s, t))
  {
    if s == [] {
      assert s + t == t;
    } else {
      TakeWhole(s, t);
    }
  }

  lemma TakeWhole(s: Bytes, t: Bytes)
    requires s != []
    ensures TakeBytes(s + t, |s|) == Some((s, t))
  {
    assert (s + t)[..|s|] == s && (s + t)[|s|..] == t;
  }

  lemma EventRoundTrip(m: Message, t: Bytes)
    requires HasEvent(m.flags) ==> !IsConnection(m.event)
    requires |m.sessionID| < MAX_LENGTH
    ensures DecodeEvent(m.flags, EventPart(m) + t) == Ok((
      if HasEvent(m.flags) then m.event else 0,
      if HasEvent(m.flags) && HasSession(m.event) then m.sessionID else [],
      [], t))
  {
    if HasEvent(m.flags) {
      assert EventPart(m) + t == Word(Unsigned(m.event)) + (SessionPart(m) + t);
      WordRoundTrip(Unsigned(m.event), SessionPart(m) + t);
      if HasSession(m.event) {
        BlockRoundTrip(m.sessionID, t, ReadSessionIDLength, ReadSessionID);
      } else {
        assert SessionPart(m) + t == t;
      }
    } else {
      assert EventPart(m) + t == t;
    }
  }

  lemma PayloadRoundTrip(p: Protocol, gz: Gzip, m: Message, t: Bytes)
    requires Inverse(gz) && |Carried(p, gz, m)| < MAX_LENGTH
    ensures DecodePayload(gz, p.compression, Word(Length32(Carried(p, gz, m))) + Carried(p, gz, m) + t) == Ok(m.payload)
  {
    BlockRoundTrip(Carried(p, gz, m), t, ReadPayloadSize, ReadPayload);
  }

  // ---- Whole frames ----

  /** Parsing a printed message, whatever follows it, gives the message back. */
  lemma RoundTrip(p: Protocol, gz: Gzip, m: Message, rest: Bytes)
    requires Inverse(gz) && PlainHeader(p) && Canonical(m) && |Carried(p, gz, m)| < MAX_LENGTH
    ensures Decode(gz, Encode(p, gz, m) + rest) == Ok(m)
  {
    var c := Carried(p, gz, m);
    EncodeAndRest(p, gz, m, rest);
    var ty, fl := BehindHeader(p, gz, m.msgType, m.flags, SequencePart(m) + (EventPart(m) + (Word(Length32(c)) + c + rest)));
    BodyRoundTrip(p, gz, m, rest);
  }

  lemma EncodeAndRest(p: Protocol, gz: Gzip, m: Message, rest: Bytes)
    ensures var c := Carried(p, gz, m);
      Encode(p, gz, m) + rest
        == Header(p, m.msgType, m.flags) + (SequencePart(m) + (EventPart(m) + (Word(Length32(c)) + c + rest)))
  {
  }

  lemma BodyRoundTrip(p: Protocol, gz: Gzip, m: Message, rest: Bytes)
    requires Inverse(gz) && Canonical(m) && |Carried(p, gz, m)| < MAX_LENGTH
    ensures var t := Word(Length32(Carried(p, gz, m))) + Carried(p, gz, m) + rest;
      DecodeBody(gz, m.msgType, m.flags, p.compression, SequencePart(m) + (EventPart(m) + t)) == Ok(m)
  {
    var t := Word(Length32(Carried(p, gz, m))) + Carried(p, gz, m) + rest;
    SequenceRoundTrip(m, EventPart(m) + t);
    EventRoundTrip(m, t);
    PayloadRoundTrip(p, gz, m, rest);
  }

  /** Frames delimit themselves: the printer is injective, even followed by more. */
  lemma SelfDelimiting(p: Protocol, gz: Gzip, m1: Message, r1: Bytes, m2: Message, r2: Bytes)
    requires Inverse(gz) && PlainHeader(p) && Canonical(m1) && Canonical(m2)
    requires |Carried(p, gz, m1)| < MAX_LENGTH && |Carried(p, gz, m2)| < MAX_LENGTH
    requires Encode(p, gz, m1) + r1 == Encode(p, gz, m2) + r2
    ensures m1 == m2 && r1 == r2
  {
    RoundTrip(p, gz, m1, r1);
    RoundTrip(p, gz, m2, r2);
    var f := Encode(p, gz, m1);
    assert (f + r1)[|f|..] == r1 && (f + r2)[|f|..] == r2;
  }

  // ---- Nothing else survives ----

  lemma BlockIsShort(s: Bytes, e1: CodecError, e2: CodecError)
    requires DecodeBlock(s, e1, e2).Ok?
    ensures |DecodeBlock(s, e1, e2).value.0| < MAX_LENGTH
    ensures |s| >= 4 && |DecodeBlock(s, e1, e2).value.0| == Number(s[..4])
  {
  }

  lemma {:induction false} ZeroNumber(s: Bytes)
    requires forall i :: 0 <= i < |s| ==> s[i] == 0
    ensures Number(s) == 0
  {
    if s != [] { ZeroNumber(s[..|s| - 1]); }
  }

  /** Zeros shifted in at the end of a string that equals its own shift fill it. */
  lemma {:induction false} ShiftedIsZero(s: Bytes, i: nat)
    requires 4 < |s| && i <= |s|
    requires s == s[4..] + seq(4, _ => 0)
    ensures forall j :: i <= j < |s| ==> s[j] == 0
    decreases |s| - i
  {
    if i < |s| {
      ShiftedIsZero(s, i + 1);
      assert s[i] == (s[4..] + seq(4, _ => 0))[i];
    }
  }

  /** No byte string is the block that its own first word announces. */
  lemma NotItsOwnBlock(s: Bytes, e1: CodecError, e2: CodecError)
    requires DecodeBlock(s, e1, e2).Ok?
    ensures DecodeBlock(s, e1, e2).value.0 != s
  {
    BlockIsShort(s, e1, e2);
    var n := Number(s[..4]);
    if DecodeBlock(s, e1, e2).value.0 == s {
      assert n == |s| && s == s[4..] + seq(n - (|s| - 4), _ => 0);
      assert s == s[4..] + seq(4, _ => 0);
      ShiftedIsZero(s, 0);
      ZeroNumber(s[..4]);
    }
  }

  /** With the whole payload read as the connection identifier, nothing is left. */
  lemma ConnectionFails(gz: Gzip, msgType: bv8, flags: bv8, compression: bv8, m: Message)
    requires m.flags == flags && HasEvent(flags) && IsConnection(m.event) && |m.payload| < MAX_LENGTH
    ensures DecodeBody(gz, msgType, flags, compression,
      SequencePart(m) + (EventPart(m) + (Word(Length32(m.payload)) + m.payload))).Err?
  {
    var t := Word(Length32(m.payload)) + m.payload;
    SequenceRoundTrip(m, EventPart(m) + t);
    assert EventPart(m) + t == Word(Unsigned(m.event)) + t;
    WordRoundTrip(Unsigned(m.event), t);
    BlockRoundTrip(m.payload, [], ReadConnectIDLength, ReadConnectID);
    assert t + [] == t;
  }

  /** With the payload length read as the error code, the payload would have to announce
      itself. */
  lemma ErrorFails(gz: Gzip, compression: bv8, m: Message)
    requires m.msgType == MSG_ERROR && compression != COMPRESSION_GZIP
    requires HasEvent(m.flags) ==> !IsConnection(m.event)
    requires |m.sessionID| < MAX_LENGTH
    ensures DecodeBody(gz, MSG_ERROR, m.flags, compression,
      SequencePart(m) + (EventPart(m) + (Word(Length32(m.payload)) + m.payload))) != Ok(m)
  {
    var t := Word(Length32(m.payload)) + m.payload;
    SequenceRoundTrip(m, EventPart(m) + t);
    EventRoundTrip(m, t);
    WordRoundTrip(Length32(m.payload), m.payload);
    if DecodeBlock(m.payload, ReadPayloadSize, ReadPayload).Ok? {
      NotItsOwnBlock(m.payload, ReadPayloadSize, ReadPayload);
    }
  }

  lemma SessionFits(m: Message, t: Bytes)
    requires HasEvent(m.flags) && HasSession(m.event)
    requires var d := DecodeEvent(m.flags, EventPart(m) + t); d.Ok? && d.value.1 == m.sessionID
    ensures |m.sessionID| < MAX_LENGTH
  {
    assert EventPart(m) + t == Word(Unsigned(m.event)) + (SessionPart(m) + t);
    WordRoundTrip(Unsigned(m.event), SessionPart(m) + t);
    BlockIsShort(SessionPart(m) + t, ReadSessionIDLength, ReadSessionID);
  }

  lemma NoSession(m: Message, t: Bytes)
    requires !HasEvent(m.flags) || !HasSession(m.event)
    requires DecodeEvent(m.flags, EventPart(m) + t).Ok?
    ensures DecodeEvent(m.flags, EventPart(m) + t).value.1 == []
  {
    if HasEvent(m.flags) {
      assert EventPart(m) + t == Word(Unsigned(m.event)) + (SessionPart(m) + t);
      WordRoundTrip(Unsigned(m.event), SessionPart(m) + t);
    }
  }

  /** A payload that comes back has a length that can be represented. */
  lemma PayloadFits(gz: Gzip, msgType: bv8, flags: bv8, compression: bv8, m: Message, s: Bytes)
    requires compression != COMPRESSION_GZIP && DecodeBody(gz, msgType, flags, compression, s) == Ok(m)
    ensures |m.payload| < MAX_LENGTH
  {
    var (_, s1) := DecodeSequence(flags, s).value;
    var (_, _, _, s2) := DecodeEvent(flags, s1).value;
    var (_, s3) := DecodeErrorCode(msgType, s2).value;
    BlockIsShort(s3, ReadPayloadSize, ReadPayload);
  }

  /** A message that comes back from behind its header is canonical there. */
  lemma BodyOnlyCanonical(gz: Gzip, compression: bv8, m: Message)
    requires compression != COMPRESSION_GZIP && m.msgType < 16 && m.flags < 16
    requires DecodeBody(gz, m.msgType, m.flags, compression,
      SequencePart(m) + (EventPart(m) + (Word(Length32(m.payload)) + m.payload))) == Ok(m)
    ensures Canonical(m) && |m.payload| < MAX_LENGTH
  {
    var t := Word(Length32(m.payload)) + m.payload;
    PayloadFits(gz, m.msgType, m.flags, compression, m, SequencePart(m) + (EventPart(m) + t));
    if HasEvent(m.flags) && IsConnection(m.event) {
      ConnectionFails(gz, m.msgType, m.flags, compression, m);
    } else {
      SequenceRoundTrip(m, EventPart(m) + t);
      if HasEvent(m.flags) && HasSession(m.event) {
        SessionFits(m, t);
      } else {
        NoSession(m, t);
        assert |m.sessionID| < MAX_LENGTH;
      }
      EventRoundTrip(m, t);
      if m.msgType == MSG_ERROR {
        ErrorFails(gz, compression, m);
      }
    }
  }

  /** Behind a printed header the parser continues with nibble-sized type and flags. */
  lemma BehindHeader(p: Protocol, gz: Gzip, msgType: bv8, flags: bv8, body: Bytes) returns (ty: bv8, fl: bv8)
    requires PlainHeader(p)
    ensures ty < 16 && fl < 16 && (msgType < 16 && flags < 16 ==> ty == msgType && fl == flags)
    ensures Decode(gz, Header(p, msgType, flags) + body) == DecodeBody(gz, ty, fl, p.compression, body)
  {
    HeaderParts(p, msgType, flags, body);
    var data := Header(p, msgType, flags) + body;
    ty, fl := High(data[1]), Low(data[1]);
  }

  lemma BodyKeepsType(gz: Gzip, ty: bv8, fl: bv8, compression: bv8, s: Bytes)
    requires DecodeBody(gz, ty, fl, compression, s).Ok?
    ensures DecodeBody(gz, ty, fl, compression, s).value.msgType == ty
    ensures DecodeBody(gz, ty, fl, compression, s).value.flags == fl
  {
  }

  function PlainBody(m: Message): Bytes {
    SequencePart(m) + (EventPart(m) + (Word(Length32(m.payload)) + m.payload))
  }

  lemma EncodeSplits(p: Protocol, gz: Gzip, m: Message)
    requires p.compression != COMPRESSION_GZIP
    ensures Encode(p, gz, m) == Header(p, m.msgType, m.flags) + PlainBody(m)
  {
  }

  lemma OnlyCanonical(p: Protocol, gz: Gzip, m: Message)
    requires PlainHeader(p) && p.compression != COMPRESSION_GZIP
    requires Decode(gz, Encode(p, gz, m)) == Ok(m)
    ensures Canonical(m) && |m.payload| < MAX_LENGTH
  {
    var body := PlainBody(m);
    EncodeSplits(p, gz, m);
    var ty, fl := BehindHeader(p, gz, m.msgType, m.flags, body);
    BodyKeepsType(gz, ty, fl, p.compression, body);
    BodyOnlyCanonical(gz, p.compression, m);
  }

  /** Without compression, a message survives printing and parsing exactly when it is
      canonical and its payload length can be represented. */
  lemma RoundTripIff(p: Protocol, gz: Gzip, m: Message)
    requires Inverse(gz) && PlainHeader(p) && p.compression != COMPRESSION_GZIP
    ensures Decode(gz, Encode(p, gz, m)) == Ok(m) <==> Canonical(m) && |m.payload| < MAX_LENGTH
  {
    if Canonical(m) && |m.payload| < MAX_LENGTH {
      RoundTrip(p, gz, m, []);
      assert Encode(p, gz, m) + [] == Encode(p, gz, m);
    } else if Decode(gz, Encode(p, gz, m)) == Ok(m) {
      OnlyCanonical(p, gz, m);
    }
  }

  // ---- Frames cut short ----

  /** s, cut to its first k bytes and filled up with zeros. */
  function ZeroFilled(s: Bytes, k: nat): Bytes
    requires k <= |s|
  {
    s[..k] + seq(|s| - k, _ => 0)
  }

  lemma CutWord(n: uint32, t: Bytes, k: nat)
    requires k <= 4 + |t|
    ensures TakeWord((Word(n) + t)[..k]) == if k < 4 then None else Some((n, t[..k - 4]))
  {
    if k >= 4 {
      assert (Word(n) + t)[..k] == Word(n) + t[..k - 4];
      WordRoundTrip(n, t[..k - 4]);
    }
  }

  lemma CutBlock(s: Bytes, k: nat, e1: CodecError, e2: CodecError)
    requires |s| < MAX_LENGTH && k < 4 + |s|
    ensures DecodeBlock((Word(Length32(s)) + s)[..k], e1, e2) ==
      if k < 4 then Err(e1) else if k == 4 then Err(e2) else Ok((ZeroFilled(s, k - 4), []))
  {
    CutWord(Length32(s), s, k);
    if k >= 4 {
      CutBehindWord((Word(Length32(s)) + s)[..k], s, k - 4, e1, e2);
    }
  }

  lemma CutBehindWord(w: Bytes, s: Bytes, j: nat, e1: CodecError, e2: CodecError)
    requires j < |s| && TakeWord(w).Some? && TakeWord(w).value.0 == |s| && TakeWord(w).value.1 == s[..j]
    ensures DecodeBlock(w, e1, e2) == if j == 0 then Err(e2) else Ok((ZeroFilled(s, j), []))
  {
    if j > 0 {
      assert s[..j] + seq(|s| - |s[..j]|, _ => 0) == ZeroFilled(s, j);
    }
  }

  /** An event cut short fails, or leaves nothing of the frame for the payload. */
  lemma CutEvent(m: Message, k: nat)
    requires HasEvent(m.flags) && !IsConnection(m.event) && |m.sessionID| < MAX_LENGTH
    requires k < |EventPart(m)|
    ensures var d := DecodeEvent(m.flags, EventPart(m)[..k]); d.Err? || d.value.3 == []
  {
    CutWord(Unsigned(m.event), SessionPart(m), k);
    if k >= 4 && HasSession(m.event) {
      CutBlock(m.sessionID, k - 4, ReadSessionIDLength, ReadSessionID);
    }
  }

  lemma NoPayloadFails(gz: Gzip, m: Message, compression: bv8, s: Bytes)
    requires m.msgType != MSG_ERROR
    requires var d := DecodeSequence(m.flags, s);
      d.Err? || (var e := DecodeEvent(m.flags, d.value.1); e.Err? || |e.value.3| < 4)
    ensures DecodeBody(gz, m.msgType, m.flags, compression, s).Err?
  {
  }

  /** What is in front of the payload, behind the header. */
  function Front(m: Message): Bytes {
    SequencePart(m) + (EventPart(m) + Word(Length32(m.payload)))
  }

  /** A frame cut before its payload is rejected. */
  lemma CutFront(gz: Gzip, m: Message, compression: bv8, k: nat)
    requires Canonical(m) && |m.payload| < MAX_LENGTH && k < |Front(m)|
    ensures DecodeBody(gz, m.msgType, m.flags, compression, Front(m)[..k]).Err?
  {
    var sq, ev, w := SequencePart(m), EventPart(m), Word(Length32(m.payload));
    var s := Front(m)[..k];
    if k < |sq| {
      assert s == (Word(Unsigned(m.sequence)) + [])[..k];
      CutWord(Unsigned(m.sequence), [], k);
    } else if k < |sq| + |ev| {
      assert s == sq + ev[..k - |sq|];
      SequenceRoundTrip(m, ev[..k - |sq|]);
      CutEvent(m, k - |sq|);
    } else {
      var r := w[..k - |sq| - |ev|];
      assert s == sq + (ev + r);
      SequenceRoundTrip(m, ev + r);
      EventRoundTrip(m, r);
    }
    NoPayloadFails(gz, m, compression, s);
  }

  /** A frame cut inside its payload is accepted with the rest zeroed, provided at least
      one byte of the payload is there. */
  lemma CutPayload(gz: Gzip, m: Message, compression: bv8, j: nat)
    requires Canonical(m) && |m.payload| < MAX_LENGTH && j < |m.payload| && compression != COMPRESSION_GZIP
    ensures DecodeBody(gz, m.msgType, m.flags, compression, Front(m) + m.payload[..j]) ==
      if j == 0 then Err(ReadPayload) else Ok(m.(payload := ZeroFilled(m.payload, j)))
  {
    var t := (Word(Length32(m.payload)) + m.payload)[..4 + j];
    assert t == Word(Length32(m.payload)) + m.payload[..j];
    assert Front(m) + m.payload[..j] == SequencePart(m) + (EventPart(m) + t);
    SequenceRoundTrip(m, EventPart(m) + t);
    EventRoundTrip(m, t);
    CutBlock(m.payload, 4 + j, ReadPayloadSize, ReadPayload);
  }

  /** What the parser makes of every proper prefix of a frame. It does not insist on the
      announced payload length: a prefix is rejected exactly when it ends before the
      first byte of the payload. */
  lemma CutFrame(p: Protocol, gz: Gzip, m: Message, k: nat)
    requires PlainHeader(p) && p.compression != COMPRESSION_GZIP
    requires Canonical(m) && |m.payload| < MAX_LENGTH && k < |Encode(p, gz, m)|
    ensures var front := |Encode(p, gz, m)| - |m.payload|;
      if k <= front then Decode(gz, Encode(p, gz, m)[..k]).Err?
      else Decode(gz, Encode(p, gz, m)[..k]) == Ok(m.(payload := ZeroFilled(m.payload, k - front)))
  {
    EncodeFront(p, gz, m);
    CutPrinted(p, gz, m, Encode(p, gz, m), k);
  }

  lemma CutPrinted(p: Protocol, gz: Gzip, m: Message, frame: Bytes, k: nat)
    requires PlainHeader(p) && p.compression != COMPRESSION_GZIP
    requires Canonical(m) && |m.payload| < MAX_LENGTH && k < |frame|
    requires frame == Header(p, m.msgType, m.flags) + (Front(m) + m.payload)
    ensures var front := |frame| - |m.payload|;
      if k <= front then Decode(gz, frame[..k]).Err?
      else Decode(gz, frame[..k]) == Ok(m.(payload := ZeroFilled(m.payload, k - front)))
  {
    if k < 4 {
      assert Decode(gz, frame[..k]) == Err(DataTooShort);
    } else {
      var rest := (Front(m) + m.payload)[..k - 4];
      CutBehind(Header(p, m.msgType, m.flags), Front(m) + m.payload, k);
      assert frame[..k] == Header(p, m.msgType, m.flags) + rest;
      CutBehindHeader(p, gz, m, k - 4);
    }
  }

  lemma EncodeFront(p: Protocol, gz: Gzip, m: Message)
    requires p.compression != COMPRESSION_GZIP
    ensures Encode(p, gz, m) == Header(p, m.msgType, m.flags) + (Front(m) + m.payload)
  {
  }

  lemma CutBehind(a: Bytes, b: Bytes, k: nat)
    requires |a| <= k <= |a| + |b|
    ensures (a + b)[..k] == a + b[..k - |a|]
  {
  }

  lemma CutBehindHeader(p: Protocol, gz: Gzip, m: Message, k: nat)
    requires PlainHeader(p) && p.compression != COMPRESSION_GZIP
    requires Canonical(m) && |m.payload| < MAX_LENGTH && k < |Front(m)| + |m.payload|
    ensures var r := Decode(gz, Header(p, m.msgType, m.flags) + (Front(m) + m.payload)[..k]);
      if k <= |Front(m)| then r.Err? else r == Ok(m.(payload := ZeroFilled(m.payload, k - |Front(m)|)))
  {
    var front := Front(m);
    if k < |front| {
      assert (front + m.payload)[..k] == front[..k];
      var ty, fl := BehindHeader(p, gz, m.msgType, m.flags, front[..k]);
      CutFront(gz, m, p.compression, k);
    } else {
      var j := k - |front|;
      assert (front + m.payload)[..k] == front + m.payload[..j];
      var ty, fl := BehindHeader(p, gz, m.msgType, m.flags, front + m.payload[..j]);
      CutPayload(gz, m, p.compression, j);
    }
  }
}
