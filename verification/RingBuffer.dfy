/** RingBuffer: a circular array that overwrites its oldest elements. */
module RingBuffer {
  import opened Common
  import opened Circular
  import opened Stores
  import Spec = NotifyStore
  import opened Notify

  /** One slot after both block copies: counted from where b starts, b comes first, then
      the old elements that survive, then c. */
  lemma OverwrittenAt<T>(a: seq<T>, h: nat, c: seq<T>, b: seq<T>, h': nat, i: nat)
    requires h < |a| && |c| + |b| <= |a| && i < |a|
    requires h' == if |c| == |a| then h else Slot(h, |c|, |a|)
    ensures Overlay(Overlay(a, h, c), h', b)[Slot(h', i, |a|)]
      == if i < |b| then b[i]
         else if i < |a| - |c| then a[Slot(h, i + |c|, |a|)]
         else c[i - (|a| - |c|)]
  {
    var k := Slot(h', i, |a|);
    assert Ahead(h', k, |a|) == i;
    assert Ahead(h, k, |a|) == if i < |a| - |c| then i + |c| else i - (|a| - |c|);
  }

  /** Value-level effect of the block copies of a write into a full ring: c goes
      over the oldest elements, b over the elements after those. */
  lemma OverwriteFull<T>(a: seq<T>, h: nat, c: seq<T>, b: seq<T>)
    requires h < |a| && |c| + |b| <= |a|
    ensures var h' := if |c| == |a| then h else Slot(h, |c|, |a|);
      Window(Overlay(Overlay(a, h, c), h', b), h', |a|) == b + Window(a, h, |a|)[|c| + |b|..] + c
  {
    var h' := if |c| == |a| then h else Slot(h, |c|, |a|);
    forall i | 0 <= i < |a|
      ensures Window(Overlay(Overlay(a, h, c), h', b), h', |a|)[i] == (b + Window(a, h, |a|)[|c| + |b|..] + c)[i]
    {
      OverwrittenAt(a, h, c, b, h', i);
    }
  }

  /** The last lap of an overwrite is bbuf, the old elements that survive, cbuf. */
  lemma LastNOfFull<T>(w: seq<T>, left: seq<T>, c: seq<T>, b: seq<T>)
    requires 0 < |w| && 0 < |left|
    requires |left| <= |w| ==> c == left && b == []
    requires |left| > |w| ==> |b| + |c| == |w| && b + c == left[|left| - |w|..]
    ensures |c| + |b| <= |w|
    ensures LastN(w + left, |w|) == b + w[|c| + |b|..] + c
  {
    if |left| > |w| {
      assert (w + left)[|left|..] == left[|left| - |w|..];
    }
  }

  /** Two copies that write b from slot k on, where k may be one past the end. */
  lemma OverlayRest<T>(a: seq<T>, k: nat, b: seq<T>, n: nat)
    requires 0 < |a| && k <= |a| && |b| <= |a| && n == Min(|a| - k, |b|)
    ensures Splice(Splice(a, k, b[..n]), 0, b[n..]) == Overlay(a, if k == |a| then 0 else k, b)
  {
    if k < |a| && n == |b| {
      assert b[..n] == b;
      OverlayStraight(a, k, b);
    } else if k < |a| {
      OverlayStraight(a, k, b[..n]);
      OverlayWrapped(a, k, b[..n], b[n..]);
      assert b[..n] + b[n..] == b;
    } else {
      OverlayStraight(a, 0, b);
    }
  }

  /** The block copies that put c over the slots from h on and b over the slots
      after those, wrapping at the end of the array wherever it falls. */
  method OverwriteBlocks<T>(buf: array<T>, h: nat, c: seq<T>, b: seq<T>)
    requires h < buf.Length && |c| + |b| <= buf.Length
    modifies buf
    ensures var h' := if |c| == buf.Length then h else Slot(h, |c|, buf.Length);
      buf[..] == Overlay(Overlay(old(buf[..]), h, c), h', b)
  {
    var cp1 := Copy(buf, h, buf.Length, c);
    if cp1 < |c| {
      FinishWrapped(buf, h, c, cp1, b, old(buf[..]));
    } else {
      assert c[..cp1] == c;
      OverlayStraight(old(buf[..]), h, c);
      FinishStraight(buf, h + cp1, b);
    }
  }

  /** c wraps: the result reads ccbbcc. a is the array before the write. */
  method FinishWrapped<T>(buf: array<T>, h: nat, c: seq<T>, cp1: nat, b: seq<T>, ghost a: seq<T>)
    requires h < buf.Length == |a| && |c| + |b| <= buf.Length && cp1 == buf.Length - h < |c|
    requires buf[..] == Splice(a, h, c[..cp1])
    modifies buf
    ensures buf[..] == Overlay(Overlay(a, h, c), if |c| == |a| then h else Slot(h, |c|, |a|), b)
  {
    var cp2 := Copy(buf, 0, buf.Length, c[cp1..]);
    assert buf[..] == Overlay(a, h, c) by {
      assert c[cp1..][..cp2] == c[cp1..] && c[..cp1] + c[cp1..] == c;
      OverlayStraight(a, h, c[..cp1]);
      OverlayWrapped(a, h, c[..cp1], c[cp1..]);
    }
    var bp := Copy(buf, cp2, buf.Length, b);
    assert b[..bp] == b;
    OverlayStraight(Overlay(a, h, c), cp2, b);
  }

  /** c does not wrap: the result reads bccccb. */
  method FinishStraight<T>(buf: array<T>, k: nat, b: seq<T>)
    requires 0 < buf.Length && k <= buf.Length && |b| <= buf.Length
    modifies buf
    ensures buf[..] == Overlay(old(buf[..]), if k == buf.Length then 0 else k, b)
  {
    var bp1 := Copy(buf, k, buf.Length, b);
    var bp2 := Copy(buf, 0, buf.Length, b[bp1..]);
    assert b[bp1..][..bp2] == b[bp1..];
    OverlayRest(old(buf[..]), k, b, bp1);
  }

  /** What of the leftn unwritten elements of p a write into a full ring of n slots
      has to copy: cbuf ends the last lap, bbuf is the part of it that cbuf leaves. */
  method LastLap<T>(p: seq<T>, leftn: nat, n: nat, ghost w: seq<T>) returns (cbuf: seq<T>, bbuf: seq<T>)
    requires 0 < leftn <= |p| && 0 < n == |w|
    ensures |cbuf| + |bbuf| <= n
    ensures LastN(w + p[|p| - leftn..], n) == bbuf + w[|cbuf| + |bbuf|..] + cbuf
  {
    ghost var left := p[|p| - leftn..];
    if leftn <= n {
      cbuf, bbuf := p[|p| - leftn..], [];
    } else {
      var cn := leftn % n;
      cbuf := p[|p| - cn..];
      bbuf := p[|p| - n..|p| - cn];
      assert bbuf + cbuf == left[|left| - n..];
    }
    LastNOfFull(w, left, cbuf, bbuf);
  }

  /** The whole overwrite on values: after the block copies, the window that starts
      |c| further on is the last lap. */
  lemma OverwriteIsLastN<T>(a: seq<T>, head: nat, left: seq<T>, c: seq<T>, b: seq<T>)
    requires 0 < |a| && |c| + |b| <= |a|
    requires var w := Window(a, head % |a|, |a|); LastN(w + left, |a|) == b + w[|c| + |b|..] + c
    ensures var (h, n) := (head % |a|, |a|);
      var h' := if |c| == n then h else Slot(h, |c|, n);
      Window(Overlay(Overlay(a, h, c), h', b), (head + |c|) % n, n) == LastN(Window(a, h, n) + left, n)
  {
    AdvanceSlot(head, |c|, |a|);
    OverwriteFull(a, head % |a|, c, b);
  }

  /** One element written behind a window, dropping the oldest when it was full. */
  lemma AddMeans<T>(a: seq<T>, h: nat, len: nat, t: T)
    requires h < |a| && len <= |a|
    ensures var n := |a|;
      var a' := a[if len == n then h else Slot(h, len, n) := t];
      LastN(Window(a, h, len) + [t], n)
        == if len == n then Window(a', if n == 1 then h else Slot(h, 1, n), n) else Window(a', h, len + 1)
  {
    var n, w := |a|, Window(a, h, len);
    var s := if len == n then h else Slot(h, len, n);
    var a' := a[s := t];
    assert a' == Overlay(a, s, [t]);
    if len == n {
      assert Overlay(a', if n == 1 then h else Slot(h, 1, n), []) == a';
      OverwriteFull(a, h, [t], []);
      assert LastN(w + [t], n) == [] + w[1..] + [t];
    } else {
      OverlayExtends(a, h, len, [t]);
    }
  }

  /** Where the slots of head, tail and the slot behind head lie. */
  lemma AddSlots(head: nat, len: nat, n: nat)
    requires 0 < n && len <= n
    ensures head % n < n && (head + len) % n < n
    ensures (head + len) % n == if len == n then head % n else Slot(head % n, len, n)
    ensures (head + 1) % n == if n == 1 then head % n else Slot(head % n, 1, n)
  {
    AdvanceSlot(head, len, n);
    AdvanceSlot(head, 1, n);
  }

  /** The same in terms of the counters. */
  lemma AddCounters<T>(a: seq<T>, head: nat, len: nat, t: T)
    requires 0 < |a| && len <= |a|
    ensures (head + len) % |a| < |a| && head % |a| < |a|
    ensures var (n, a') := (|a|, a[(head + len) % |a| := t]);
      LastN(Window(a, head % n, len) + [t], n)
        == if len == n then Window(a', (head + 1) % n, n) else Window(a', head % n, len + 1)
  {
    AddSlots(head, len, |a|);
    AddMeans(a, head % |a|, len, t);
  }

  class RingBuffer<T(0)> {
    const writeNotify: Channel
    const buf: array<T>
    var head: int
    var tail: int
    var closeWrite: bool
    var closeErr: Option<Error>

    ghost predicate Valid()
      reads this, writeNotify
    {
      && 0 < buf.Length
      && 0 <= head <= tail <= head + buf.Length
      && writeNotify.closed == closeWrite
      && (closeErr.Some? ==> closeWrite)
    }

    ghost function Contents(): seq<T>
      requires Valid()
      reads this, writeNotify, buf
    {
      Window(buf[..], head % buf.Length, tail - head)
    }

    /** The abstract store this object represents. */
    ghost function View(): Spec.Notified<T>
      requires Valid()
      reads this, writeNotify, buf
    {
      Spec.Notified(Store(Contents(), closeWrite, closeErr), writeNotify.token)
    }

    ghost function Kind(): Spec.Kind { Spec.Ring(buf.Length) }

    constructor RingN(size: nat)
      requires 0 < size
      ensures Valid() && fresh(buf) && fresh(writeNotify) && buf.Length == size
      ensures View() == Spec.Notified(Stores.Empty(), false)
    {
      writeNotify := new Channel();
      buf := new T[size];
      head, tail, closeWrite, closeErr := 0, 0, false, None;
    }

    /** Drops the n oldest elements, or all of them. A negative count is not refused: it
        moves head back over stale slots, which keeps the buffer sound exactly when
        there are that many slots behind head that hold no live element. */
    method Discard(n: int) returns (r: Outcome<()>)
      requires Valid()
      modifies this`head
      ensures n >= 0 || closeErr.Some? ==>
        Valid() && (View().store, r) == Stores.Discard(old(View().store), if n < 0 then 0 else n)
        && View().token == old(View().token)
      ensures n < 0 && closeErr.None? ==>
        && r == Returned(())
        && (Valid() <==> 0 <= old(head) + n && |old(Contents())| - n <= buf.Length)
        && (Valid() ==> |Contents()| == |old(Contents())| - n && Contents()[-n..] == old(Contents()))
    {
      if closeErr.Some? {
        return Failed(Wrapped(SKIP_CLOSED, closeErr.value));
      }
      if n > tail - head {
        ghost var c := Contents();
        head := tail;
        assert Contents() == [] == c[Min(n, |c|)..];
        return Returned(());
      }
      if -n <= head && tail - head - n <= buf.Length {
        WindowMoved(buf[..], head, tail - head, n);
      }
      head := head + n;
      return Returned(());
    }

    /** One pass of the read loop. After `Waits` the reader receives from
        `writeNotify` without the lock and tries again. */
    method Read(p: array<T>) returns (r: Outcome<nat>)
      requires Valid() && p != buf
      modifies this`head, p
      ensures Valid()
      ensures var (after, out) := Take(old(View().store), p.Length, ErrEOF);
        && View() == Spec.Notified(after, old(View().token))
        && (out.Returned? ==> r == Returned(|out.value|) && p[..] == out.value + old(p[..])[|out.value|..])
        && (out.Failed? ==> r == Failed(out.error) && p[..] == old(p[..]))
        && (out.Waits? ==> r == Waits && p[..] == old(p[..]))
    {
      if closeErr.Some? {
        return Failed(Wrapped(READ_CLOSED, closeErr.value));
      }
      if head == tail {
        if closeWrite {
          return Failed(ErrEOF);
        }
        return Waits;
      }
      AdvanceSlot(head, 0, buf.Length);
      var n := Drain(buf, head % buf.Length, tail - head, p);
      WindowAdvance(buf[..], head, tail - head, n);
      head := head + n;
      return Returned(n);
    }

    method Next() returns (r: Outcome<T>)
      requires Valid()
      modifies this`head
      ensures Valid()
      ensures var (after, out) := Take(old(View().store), 1, ErrIteratorDone);
        && View() == Spec.Notified(after, old(View().token))
        && (out.Returned? ==> r.Returned? && out.value == [r.value])
        && (out.Failed? ==> r == Failed(out.error))
        && (out.Waits? ==> r == Waits)
    {
      if closeErr.Some? {
        return Failed(Wrapped(READ_CLOSED, closeErr.value));
      }
      if head == tail {
        if closeWrite {
          return Failed(ErrIteratorDone);
        }
        return Waits;
      }
      AdvanceSlot(head, 0, buf.Length);
      WindowAdvance(buf[..], head, tail - head, 1);
      var chunk := buf[head % buf.Length];
      head := head + 1;
      return Returned(chunk);
    }

    method CloseWithError(err: Option<Error>)
      requires Valid()
      modifies this`closeErr, this`closeWrite, writeNotify
      ensures Valid() && View() == old(View()).(store := Spec.CloseWithError(Kind(), old(View().store), err))
    {
      var e := if err.None? then ErrClosedPipe else err.value;
      if closeErr.Some? {
        return;
      }
      closeErr := Some(e);
      if !closeWrite {
        closeWrite := true;
        writeNotify.Close();
      }
    }

    method CloseWrite()
      requires Valid()
      modifies this`closeWrite, writeNotify
      ensures Valid() && View() == old(View()).(store := Stores.CloseWrite(old(View().store)))
    {
      if closeWrite {
        return;
      }
      closeWrite := true;
      writeNotify.Close();
    }

    /** Appends p and keeps the last buf.Length elements, although head and tail
        move only by the elements of p that were really copied. */
    method Write(p: seq<T>) returns (r: Outcome<nat>)
      requires Valid()
      modifies this`head, this`tail, buf
      ensures Valid() && (View(), r) == Spec.Write(Kind(), old(View()), p)
    {
      if closeErr.Some? {
        return Failed(Wrapped(WRITE_CLOSED, closeErr.value));
      }
      if closeWrite {
        return Failed(Wrapped(WRITE_CLOSED, ErrClosedPipe));
      }
      var wn := WriteToFull(p);
      var leftn := |p| - wn;
      if leftn == 0 {
        assert p[..wn] == p;
        return Returned(wn);
      }
      Overwrite(leftn, p);
      assert old(Contents()) + p == old(Contents()) + p[..wn] + p[wn..];
      return Returned(|p|);
    }

    /** First half of Write: fill the free slots. */
    method WriteToFull(p: seq<T>) returns (wn: nat)
      requires Valid()
      modifies this`tail, buf
      ensures Valid() && wn == Min(buf.Length - |old(Contents())|, |p|)
      ensures Contents() == old(Contents()) + p[..wn]
    {
      var avail := buf.Length - (tail - head);
      wn := 0;
      AdvanceSlot(tail, 0, buf.Length);
      AdvanceSlot(head, tail - head, buf.Length);
      if avail > 0 {
        wn := Fill(buf, tail % buf.Length, avail, p);
        OverlayExtends(old(buf[..]), head % buf.Length, tail - head, p[..wn]);
        tail := tail + wn;
      }
    }

    /** Second half of Write, on a full ring: the last leftn elements of p are
        unwritten. Laps that would be overwritten again are skipped; what remains
        is cbuf, over the oldest slots, and bbuf, over the slots after those. */
    method Overwrite(leftn: nat, p: seq<T>)
      requires Valid() && tail - head == buf.Length
      requires 0 < leftn <= |p|
      modifies this`head, this`tail, buf
      ensures Valid()
      ensures Contents() == LastN(old(Contents()) + p[|p| - leftn..], buf.Length)
    {
      var n := buf.Length;
      ghost var a, w := buf[..], Contents();
      var cbuf, bbuf := LastLap(p, leftn, n, w);
      assert w == Window(a, head % n, n);
      OverwriteBlocks(buf, head % n, cbuf, bbuf);
      OverwriteIsLastN(a, head, p[|p| - leftn..], cbuf, bbuf);
      assert Window(buf[..], (head + |cbuf|) % n, n) == LastN(w + p[|p| - leftn..], n);
      head := head + |cbuf|;
      tail := tail + |cbuf|;
      assert Contents() == Window(buf[..], head % n, n);
    }

    method Add(t: T) returns (r: Outcome<()>)
      requires Valid()
      modifies this`head, this`tail, buf, writeNotify`token
      ensures Valid() && (View(), r) == Spec.Add(Kind(), old(View()), t)
    {
      if closeErr.Some? {
        return Failed(Wrapped(WRITE_CLOSED, closeErr.value));
      }
      if closeWrite {
        return Failed(Wrapped(WRITE_CLOSED, ErrClosedPipe));
      }
      ghost var a := buf[..];
      AddCounters(a, head, tail - head, t);
      buf[tail % buf.Length] := t;
      assert buf[..] == a[tail % |a| := t];
      tail := tail + 1;
      if tail - head > buf.Length {
        head := head + 1;
      }
      writeNotify.TrySend();
      return Returned(());
    }

    method Reset()
      requires Valid()
      modifies this`head, this`tail
      ensures Valid() && View() == old(View()).(store := Stores.Reset(old(View().store)))
    {
      head, tail := 0, 0;
    }

    method Len() returns (n: nat)
      requires Valid()
      ensures n == |Contents()|
    {
      return tail - head;
    }

    /** The contents when there are any. On an empty buffer the two slots coincide
        just as on a full one, and the whole array comes back. */
    method Bytes() returns (s: seq<T>)
      requires Valid()
      ensures s == if Contents() == [] then Window(buf[..], head % buf.Length, buf.Length) else Contents()
      ensures s == Contents() <==> Contents() != []
    {
      s := Between(buf, head, tail);
    }
  }
}
