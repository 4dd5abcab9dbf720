/** `bytes.Buffer` as the codecs use it: append at the end, consume from the front. */
module ByteBuffer {
  import opened Common
  import opened ByteOrder

  type uint32 = n: int | 0 <= n < 0x1_0000_0000
  type int32 = x: int | -0x8000_0000 <= x < 0x8000_0000

  /** The two's complement reading of a signed word. */
  function Unsigned(x: int32): uint32 { if x < 0 then x + 0x1_0000_0000 else x }
  function Signed(n: uint32): int32 { if n < 0x8000_0000 then n else n - 0x1_0000_0000 }

  /** `uint32(len(s))`: long lengths wrap around. */
  function Length32(s: Bytes): uint32 { |s| % 0x1_0000_0000 }

  function Word(n: uint32): (s: Bytes)
    ensures |s| == 4
  {
    BigEndian(n, 4)
  }

  /** `binary.Read` of four bytes: fails unless all four are there. */
  function TakeWord(s: Bytes): Option<(uint32, Bytes)> {
    if |s| < 4 then None else WordBound(s[..4]); Some((Number(s[..4]), s[4..]))
  }

  /** `Buffer.Read` into a slice of n > 0 bytes. It fails only when nothing is left;
      what a short buffer does not fill stays zero. */
  function TakeBytes(s: Bytes, n: nat): Option<(Bytes, Bytes)> {
    if s == [] then None
    else if n <= |s| then Some((s[..n], s[n..]))
    else Some((s + seq(n - |s|, _ => 0), []))
  }

  lemma WordBound(s: Bytes)
    requires |s| == 4
    ensures Number(s) < 0x1_0000_0000
  {
    NumberBound(s);
    assert Pow256(4) == 0x1_0000_0000;
  }

  lemma WordRoundTrip(n: uint32, rest: Bytes)
    ensures TakeWord(Word(n) + rest) == Some((n, rest))
  {
    assert Pow256(4) == 0x1_0000_0000;
    Small(n, 4);
    assert (Word(n) + rest)[..4] == Word(n) && (Word(n) + rest)[4..] == rest;
  }

  class Buffer {
    var unread: Bytes

    constructor (data: Bytes)
      ensures unread == data
    {
      unread := data;
    }

    method WriteByte(b: byte)
      modifies this
      ensures unread == old(unread) + [b]
    {
      unread := unread + [b];
    }

    method Write(p: Bytes)
      modifies this
      ensures unread == old(unread) + p
    {
      unread := unread + p;
    }

    method WriteWord(n: uint32)
      modifies this
      ensures unread == old(unread) + Word(n)
    {
      unread := unread + BigEndian(n, 4);
    }

    method ReadByte() returns (b: byte)
      requires unread != []
      modifies this
      ensures [b] + unread == old(unread)
    {
      b := unread[0];
      unread := unread[1..];
    }

    method Next(n: nat)
      modifies this
      ensures unread == old(unread)[Min(n, |old(unread)|)..]
    {
      unread := unread[Min(n, |unread|)..];
    }

    method ReadWord() returns (r: Option<uint32>)
      modifies this
      ensures r.None? <==> TakeWord(old(unread)).None?
      ensures r.Some? ==> TakeWord(old(unread)) == Some((r.value, unread))
    {
      if |unread| < 4 {
        unread := [];
        return None;
      }
      WordBound(unread[..4]);
      r := Some(Number(unread[..4]));
      unread := unread[4..];
    }

    method Read(n: nat) returns (r: Option<Bytes>)
      requires n > 0
      modifies this
      ensures r.None? <==> TakeBytes(old(unread), n).None?
      ensures r.Some? ==> TakeBytes(old(unread), n) == Some((r.value, unread))
    {
      if unread == [] {
        return None;
      }
      if n <= |unread| {
        r := Some(unread[..n]);
        unread := unread[n..];
      } else {
        r := Some(unread + seq(n - |unread|, _ => 0));
        unread := [];
      }
    }
  }
}
