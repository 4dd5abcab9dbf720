/** Audio frames stamped with their time: one version byte, seven bytes of big-endian
    milliseconds, the opus frame. */
module StampedFrame {
  import opened Common
  import opened ByteOrder

  const FRAME_VERSION: byte := 1
  const STAMPED_HEADER_SIZE := 8
  const STAMP_RANGE := 0x100_0000_0000_0000
  const WORD_RANGE := 0x1_0000_0000_0000_0000

  type int64 = x: int | -0x8000_0000_0000_0000 <= x < 0x8000_0000_0000_0000

  function Stamp(frame: Bytes, ms: int64): Bytes {
    [FRAME_VERSION] + BigEndian(ms % WORD_RANGE, 8)[1..] + frame
  }

  function Unstamp(b: Bytes): Option<(Bytes, int64)> {
    if |b| < STAMPED_HEADER_SIZE || b[0] != FRAME_VERSION || |b| == STAMPED_HEADER_SIZE then None
    else StampInRange(b[1..8]); Some((b[8..], Number([0] + b[1..8])))
  }

  lemma StampInRange(s: Bytes)
    requires |s| == 7
    ensures Number([0] + s) == Number(s) < STAMP_RANGE
  {
    NumberBound(s);
    Power7();
    LeadingZero(s);
  }

  lemma Power7()
    ensures Pow256(7) == STAMP_RANGE
  {
    assert Pow256(3) == 0x100_0000;
    assert Pow256(5) == 0x100_0000_0000;
  }

  lemma {:induction false} LeadingZero(s: Bytes)
    ensures Number([0] + s) == Number(s)
  {
    if s == [] {
      var zero: Bytes := [0];
      assert zero + s == zero && zero[..0] == [];
    } else {
      LeadingZero(s[..|s| - 1]);
      assert ([0] + s)[..|s|] == [0] + s[..|s| - 1];
    }
  }

  lemma {:induction false} DropTopDigit(n: nat, k: nat)
    ensures BigEndian(n, k + 1)[1..] == BigEndian(n, k)
  {
    if k > 0 {
      DropTopDigit(n / 256, k - 1);
    }
  }

  /** Writes the full 64-bit number, then the version over its top byte. */
  method StampFrame(frame: Bytes, ms: int64) returns (b: Bytes)
    ensures b == Stamp(frame, ms)
  {
    var buf := new byte[8];
    var word := BigEndian(ms % WORD_RANGE, 8);
    for i := 0 to 8
      invariant buf[..i] == word[..i]
    {
      buf[i] := word[i];
    }
    assert buf[..] == word;
    buf[0] := FRAME_VERSION;
    b := buf[..] + frame;
  }

  /** Copies the seven stamp bytes behind a zero byte and reads all eight. */
  method UnstampFrame(b: Bytes) returns (r: Option<(Bytes, int64)>)
    ensures r == Unstamp(b)
  {
    if |b| < STAMPED_HEADER_SIZE {
      return None;
    }
    if b[0] != FRAME_VERSION {
      return None;
    }
    var buf := new byte[8](_ => 0);
    for i := 1 to 8
      invariant buf[0] == 0 && buf[1..i] == b[1..i]
    {
      buf[i] := b[i];
    }
    assert buf[..] == [0] + b[1..8];
    StampInRange(b[1..8]);
    var stamp := Number(buf[..]);
    var frame := b[STAMPED_HEADER_SIZE..];
    if |frame| < 1 {
      return None;
    }
    return Some((frame, stamp));
  }

  /** The seven bytes that survive carry the time modulo 2^56. */
  lemma StampBytes(ms: int64)
    ensures |BigEndian(ms % WORD_RANGE, 8)[1..]| == 7
    ensures Number(BigEndian(ms % WORD_RANGE, 8)[1..]) == ms % STAMP_RANGE
  {
    LowDigits(ms % WORD_RANGE, 7);
    Power7();
    SameStamp(ms);
  }

  lemma LowDigits(n: nat, k: nat)
    ensures Number(BigEndian(n, k + 1)[1..]) == n % Pow256(k)
  {
    DropTopDigit(n, k);
    NumberOfBigEndian(n, k);
  }

  lemma SameStamp(ms: int)
    ensures (ms % WORD_RANGE) % STAMP_RANGE == ms % STAMP_RANGE
  {
  }

  lemma UnstampParts(s: Bytes, frame: Bytes)
    requires |s| == 7
    ensures Unstamp([FRAME_VERSION] + s + frame) == if frame == [] then None else Some((frame, Number(s)))
  {
    var b := [FRAME_VERSION] + s + frame;
    assert b[1..8] == s && b[8..] == frame;
    StampInRange(s);
  }

  /** A stamped frame gives back the frame and its time modulo 2^56 milliseconds: the
      time itself exactly from 1970 on, below 2^56. An empty frame gives nothing. */
  lemma StampRoundTrip(frame: Bytes, ms: int64)
    ensures Unstamp(Stamp(frame, ms)) == if frame == [] then None else Some((frame, ms % STAMP_RANGE))
    ensures frame != [] ==> (Unstamp(Stamp(frame, ms)) == Some((frame, ms)) <==> 0 <= ms < STAMP_RANGE)
  {
    StampBytes(ms);
    UnstampParts(BigEndian(ms % WORD_RANGE, 8)[1..], frame);
    StampExact(ms);
  }

  lemma StampExact(ms: int)
    ensures ms % STAMP_RANGE == ms <==> 0 <= ms < STAMP_RANGE
  {
  }

  lemma SmallStamp(n: nat)
    requires n < STAMP_RANGE
    ensures n % WORD_RANGE == n
  {
  }

  lemma StampOfNumber(s: Bytes)
    requires |s| == 7
    ensures Number(s) < STAMP_RANGE && BigEndian(Number(s) % WORD_RANGE, 8)[1..] == s
  {
    StampInRange(s);
    SmallStamp(Number(s));
    SevenDigits(s, 7);
  }

  lemma SevenDigits(s: Bytes, k: nat)
    requires |s| == k
    ensures BigEndian(Number(s), k + 1)[1..] == s
  {
    BigEndianOfNumber(s);
    DropTopDigit(Number(s), k);
  }

  /** What is on the wire: version 1, the seven low bytes of the 64-bit time, most
      significant first, and the frame. */
  lemma StampLayout(frame: Bytes, ms: int64, i: nat)
    ensures var b := Stamp(frame, ms);
      && |b| == 8 + |frame| && b[0] == 1 && b[8..] == frame
      && (i < 7 ==> b[7 - i] == ms % 0x1_0000_0000_0000_0000 / Pow256(i) % 256)
  {
    if i < 7 {
      DigitAt(ms % WORD_RANGE, 8, i);
    }
  }

  /** What is not a stamped frame: anything without a byte of the frame, or of another version. */
  lemma UnstampIff(b: Bytes)
    ensures Unstamp(b).Some? <==> |b| > 8 && b[0] == 1
    ensures Unstamp(b).Some? ==> Unstamp(b).value.0 == b[8..] && Unstamp(b).value.1 == Number(b[1..8])
  {
    if |b| >= 8 {
      StampInRange(b[1..8]);
    }
  }

  /** Conversely, what unstamps at all is the stamped frame of what it unstamps to. */
  lemma UnstampRoundTrip(b: Bytes)
    requires Unstamp(b).Some?
    ensures Stamp(Unstamp(b).value.0, Unstamp(b).value.1) == b
  {
    var s, frame := b[1..8], b[8..];
    StampOfNumber(s);
    assert b == [FRAME_VERSION] + s + frame;
    UnstampParts(s, frame);
  }
}
