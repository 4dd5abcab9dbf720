/** BlockBuffer: a bounded circular array whose operations wait on one shared
    condition variable. */
module BlockBuffer {
  import opened Common
  import opened Circular
  import opened Stores

  /** One section of a producer with p left to write, from taking the lock to
      returning or to the next `cond.Wait`: what it leaves, how many elements it
      accepted, and how it ends. It signals iff it accepted any. A resumed operation
      runs the same section again on what it has left. */
  function Put<T>(s: Store<T>, cap: nat, p: seq<T>): (Store<T>, nat, Outcome<()>)
    requires |s.items| <= cap
  {
    if WriteRefusal(s).Some? then (s, 0, Failed(WriteRefusal(s).value))
    else var n := Min(cap - |s.items|, |p|);
      (s.(items := s.items + p[..n]), n, if n == |p| then Returned(()) else Waits)
  }

  /** The condition variable, as the log of the calls made on it. */
  class Cond {
    var signals: nat
    var broadcasts: nat

    constructor ()
      ensures signals == 0 && broadcasts == 0
    {
      signals, broadcasts := 0, 0;
    }

    method Signal()
      modifies this`signals
      ensures signals == old(signals) + 1
    {
      signals := signals + 1;
    }

    method Broadcast()
      modifies this`broadcasts
      ensures broadcasts == old(broadcasts) + 1
    {
      broadcasts := broadcasts + 1;
    }
  }

  class BlockBuffer<T(0)> {
    const cond: Cond
    const buf: array<T>
    var head: int
    var tail: int
    var closeWrite: bool
    var closeErr: Option<Error>

    ghost predicate Valid()
      reads this
    {
      0 < buf.Length && 0 <= head <= tail <= head + buf.Length && (closeErr.Some? ==> closeWrite)
    }

    ghost function Contents(): seq<T>
      requires Valid()
      reads this, buf
    {
      Window(buf[..], head % buf.Length, tail - head)
    }

    ghost function View(): Store<T>
      requires Valid()
      reads this, buf
    {
      Store(Contents(), closeWrite, closeErr)
    }

    /** Wraps the caller's slice as the storage of the buffer. */
    constructor Block(buf: array<T>)
      requires 0 < buf.Length
      ensures Valid() && this.buf == buf && fresh(cond)
      ensures View() == Empty()
    {
      cond := new Cond();
      this.buf := buf;
      head, tail, closeWrite, closeErr := 0, 0, false, None;
    }

    /** One section of Read; after `Waits` the caller waits on cond and repeats it. */
    method Read(p: array<T>) returns (r: Outcome<nat>)
      requires Valid() && p != buf
      modifies this`head, p, cond`signals
      ensures Valid()
      ensures var (after, out) := Take(old(View()), p.Length, ErrEOF);
        && View() == after
        && cond.signals == old(cond.signals) + (if out.Returned? then 1 else 0)
        && (out.Returned? ==> r == Returned(|out.value|) && p[..] == out.value + old(p[..])[|out.value|..])
        && (out.Failed? ==> r == Failed(out.error) && p[..] == old(p[..]))
        && (out.Waits? ==> r == Waits && p[..] == old(p[..]))
    {
      if closeErr.Some? {
        return Failed(Wrapped(READ_CLOSED, closeErr.value));
      }
      if head == tail {
        if closeWrite {
          return Failed(ErrEOF);
        }
        return Waits;
      }
      AdvanceSlot(head, 0, buf.Length);
      var n := Drain(buf, head % buf.Length, tail - head, p);
      WindowAdvance(buf[..], head, tail - head, n);
      head := head + n;
      cond.Signal();
      return Returned(n);
    }

    method Next() returns (r: Outcome<T>)
      requires Valid()
      modifies this`head, cond`signals
      ensures Valid()
      ensures var (after, out) := Take(old(View()), 1, ErrIteratorDone);
        && View() == after
        && cond.signals == old(cond.signals) + (if out.Returned? then 1 else 0)
        && (out.Returned? ==> r.Returned? && out.value == [r.value])
        && (out.Failed? ==> r == Failed(out.error))
        && (out.Waits? ==> r == Waits)
    {
      if closeErr.Some? {
        return Failed(Wrapped(READ_CLOSED, closeErr.value));
      }
      if head == tail {
        if closeWrite {
          return Failed(ErrIteratorDone);
        }
        return Waits;
      }
      AdvanceSlot(head, 0, buf.Length);
      WindowAdvance(buf[..], head, tail - head, 1);
      var chunk := buf[head % buf.Length];
      head := head + 1;
      cond.Signal();
      return Returned(chunk);
    }

    /** One section of Write, resumed with the first `done` elements of p written. */
    method Write(p: seq<T>, done: nat) returns (wn: nat, r: Outcome<()>)
      requires Valid() && done <= |p|
      modifies this`tail, buf, cond`signals
      ensures Valid()
      ensures var (after, n, out) := Put(old(View()), buf.Length, p[done..]);
        && View() == after && wn == done + n && r == out
        && cond.signals == old(cond.signals) + (if n > 0 then 1 else 0)
    {
      wn := done;
      if closeErr.Some? {
        return wn, Failed(Wrapped(WRITE_CLOSED, closeErr.value));
      }
      if closeWrite {
        return wn, Failed(Wrapped(WRITE_CLOSED, ErrClosedPipe));
      }
      ghost var c := Contents();
      while wn < |p|
        invariant Valid() && wn <= |p| && done <= wn
        invariant Contents() == c + p[done..][..wn - done]
        invariant wn > done ==> wn == |p| || tail - head == buf.Length
        invariant cond.signals == old(cond.signals) + (if wn > done then 1 else 0)
        decreases |p| - wn
      {
        if tail - head == buf.Length {
          return wn, Waits;
        }
        var n := FillFree(p[wn..]);
        assert p[done..][..wn + n - done] == p[done..][..wn - done] + p[wn..][..n];
        wn := wn + n;
        cond.Signal();
      }
      return wn, Returned(());
    }

    /** The copy step of Write: as much of p as the free slots hold. */
    method FillFree(p: seq<T>) returns (n: nat)
      requires Valid() && tail - head < buf.Length
      modifies this`tail, buf
      ensures Valid() && n == Min(buf.Length - |old(Contents())|, |p|)
      ensures Contents() == old(Contents()) + p[..n]
    {
      AdvanceSlot(tail, 0, buf.Length);
      AdvanceSlot(head, tail - head, buf.Length);
      n := Fill(buf, tail % buf.Length, buf.Length - (tail - head), p);
      OverlayExtends(old(buf[..]), head % buf.Length, tail - head, p[..n]);
      tail := tail + n;
    }

    method Add(t: T) returns (r: Outcome<()>)
      requires Valid()
      modifies this`tail, buf, cond`signals
      ensures Valid()
      ensures var (after, n, out) := Put(old(View()), buf.Length, [t]);
        && View() == after && r == out
        && cond.signals == old(cond.signals) + (if n > 0 then 1 else 0)
    {
      if closeErr.Some? {
        return Failed(Wrapped(WRITE_CLOSED, closeErr.value));
      }
      if closeWrite {
        return Failed(Wrapped(WRITE_CLOSED, ErrClosedPipe));
      }
      if tail - head == buf.Length {
        return Waits;
      }
      ghost var a, h, len := buf[..], head % buf.Length, tail - head;
      AdvanceSlot(tail, 0, buf.Length);
      AdvanceSlot(head, len, buf.Length);
      buf[tail % buf.Length] := t;
      assert buf[..] == Overlay(a, Slot(h, len, buf.Length), [t]);
      OverlayExtends(a, h, len, [t]);
      tail := tail + 1;
      cond.Signal();
      return Returned(());
    }

    /** Drops the n oldest elements, or all of them, and wakes nobody. A negative count is
        not refused: it moves head back over stale slots, which keeps the buffer sound
        exactly when there are that many slots behind head that hold no live element. */
    method Discard(n: int) returns (r: Outcome<()>)
      requires Valid()
      modifies this`head
      ensures n >= 0 || closeErr.Some? ==>
        Valid() && (View(), r) == Stores.Discard(old(View()), if n < 0 then 0 else n)
      ensures n < 0 && closeErr.None? ==>
        && r == Returned(())
        && (Valid() <==> 0 <= old(head) + n && |old(Contents())| - n <= buf.Length)
        && (Valid() ==> |Contents()| == |old(Contents())| - n && Contents()[-n..] == old(Contents()))
      ensures cond.signals == old(cond.signals) && cond.broadcasts == old(cond.broadcasts)
    {
      if closeErr.Some? {
        return Failed(Wrapped(SKIP_CLOSED, closeErr.value));
      }
      if n > tail - head {
        ghost var c := Contents();
        head := tail;
        assert Contents() == [] == c[Min(n, |c|)..];
        return Returned(());
      }
      if -n <= head && tail - head - n <= buf.Length {
        WindowMoved(buf[..], head, tail - head, n);
      }
      head := head + n;
      return Returned(());
    }

    method CloseWithError(err: Option<Error>)
      requires Valid()
      modifies this`closeErr, this`closeWrite, cond`broadcasts
      ensures Valid() && View() == Stores.CloseWithError(old(View()), err)
      ensures cond.broadcasts == old(cond.broadcasts) + (if old(closeErr).Some? then 0 else 1)
    {
      var e := if err.None? then ErrClosedPipe else err.value;
      if closeErr.Some? {
        return;
      }
      closeErr := Some(e);
      if !closeWrite {
        closeWrite := true;
      }
      cond.Broadcast();
    }

    method CloseWrite()
      requires Valid()
      modifies this`closeWrite, cond`broadcasts
      ensures Valid() && View() == Stores.CloseWrite(old(View()))
      ensures cond.broadcasts == old(cond.broadcasts) + (if old(closeWrite) then 0 else 1)
    {
      if closeWrite {
        return;
      }
      closeWrite := true;
      cond.Broadcast();
    }

    method Reset()
      requires Valid()
      modifies this`head, this`tail
      ensures Valid() && View() == Stores.Reset(old(View()))
    {
      head, tail := 0, 0;
    }

    method Len() returns (n: nat)
      requires Valid()
      ensures n == |Contents()|
    {
      return tail - head;
    }

    /** The contents, except on an empty buffer, where the whole array comes back
        although the documentation promises an empty slice. */
    method Bytes() returns (s: seq<T>)
      requires Valid()
      ensures s == if Contents() == [] then Window(buf[..], head % buf.Length, buf.Length) else Contents()
      ensures s == Contents() <==> Contents() != []
    {
      s := Between(buf, head, tail);
    }
  }
}
