/** Buffer: the growable queue, a slice with a notification channel. */
module GrowBuffer {
  import opened Common
  import opened Circular
  import opened Stores
  import Spec = NotifyStore
  import opened Notify

  class Buffer<T> {
    const writeNotify: Channel
    var closeWrite: bool
    var closeErr: Option<Error>
    var buf: seq<T>

    ghost predicate Valid()
      reads this, writeNotify
    {
      writeNotify.closed == closeWrite && (closeErr.Some? ==> closeWrite)
    }

    ghost function View(): Spec.Notified<T>
      reads this, writeNotify
    {
      Spec.Notified(Store(buf, closeWrite, closeErr), writeNotify.token)
    }

    constructor N()
      ensures Valid() && fresh(writeNotify)
      ensures View() == Spec.Notified(Stores.Empty(), false)
    {
      writeNotify := new Channel();
      closeWrite, closeErr, buf := false, None, [];
    }

    /** Notifies before it appends, under one lock. */
    method Write(p: seq<T>) returns (r: Outcome<nat>)
      requires Valid()
      modifies this`buf, writeNotify`token
      ensures Valid() && (View(), r) == Spec.Write(Spec.Growable, old(View()), p)
    {
      if closeErr.Some? {
        return Failed(Wrapped(WRITE_CLOSED, closeErr.value));
      }
      if closeWrite {
        return Failed(Wrapped(WRITE_CLOSED, ErrClosedPipe));
      }
      writeNotify.TrySend();
      buf := buf + p;
      return Returned(|p|);
    }

    method Discard(n: nat) returns (r: Outcome<()>)
      requires Valid()
      modifies this`buf
      ensures Valid() && View().token == old(View().token)
      ensures (View().store, r) == Stores.Discard(old(View().store), n)
    {
      if closeErr.Some? {
        return Failed(Wrapped(SKIP_CLOSED, closeErr.value));
      }
      assert buf[|buf|..] == [];
      if n > |buf| {
        buf := [];
        return Returned(());
      }
      buf := buf[n..];
      return Returned(());
    }

    /** One pass of the read loop. After `Waits` the reader receives from
        `writeNotify` without the lock and tries again. */
    method Read(p: array<T>) returns (r: Outcome<nat>)
      requires Valid()
      modifies this`buf, p
      ensures Valid()
      ensures var (after, out) := Take(old(View().store), p.Length, ErrEOF);
        && View() == Spec.Notified(after, old(View().token))
        && (out.Returned? ==> r == Returned(|out.value|) && p[..] == out.value + old(p[..])[|out.value|..])
        && (out.Failed? ==> r == Failed(out.error) && p[..] == old(p[..]))
        && (out.Waits? ==> r == Waits && p[..] == old(p[..]))
    {
      if closeErr.Some? {
        return Failed(Wrapped(READ_CLOSED, closeErr.value));
      }
      if |buf| == 0 {
        if closeWrite {
          return Failed(ErrEOF);
        }
        return Waits;
      }
      var n := Copy(p, 0, p.Length, buf);
      buf := buf[n..];
      return Returned(n);
    }

    method Next() returns (r: Outcome<T>)
      requires Valid()
      modifies this`buf
      ensures Valid()
      ensures var (after, out) := Take(old(View().store), 1, ErrIteratorDone);
        && View() == Spec.Notified(after, old(View().token))
        && (out.Returned? ==> r.Returned? && out.value == [r.value])
        && (out.Failed? ==> r == Failed(out.error))
        && (out.Waits? ==> r == Waits)
    {
      if closeErr.Some? {
        return Failed(Wrapped(READ_CLOSED, closeErr.value));
      }
      if |buf| == 0 {
        if closeWrite {
          return Failed(ErrIteratorDone);
        }
        return Waits;
      }
      var t := buf[0];
      buf := buf[1..];
      return Returned(t);
    }

    method Add(t: T) returns (r: Outcome<()>)
      requires Valid()
      modifies this`buf, writeNotify`token
      ensures Valid() && (View(), r) == Spec.Add(Spec.Growable, old(View()), t)
    {
      if closeErr.Some? {
        return Failed(Wrapped(WRITE_CLOSED, closeErr.value));
      }
      if closeWrite {
        return Failed(Wrapped(WRITE_CLOSED, ErrClosedPipe));
      }
      buf := buf + [t];
      writeNotify.TrySend();
      return Returned(());
    }

    method CloseWithError(err: Option<Error>)
      requires Valid()
      modifies this, writeNotify`closed
      ensures Valid()
      ensures View() == old(View()).(store := Spec.CloseWithError(Spec.Growable, old(View().store), err))
    {
      var e := if err.None? then ErrClosedPipe else err.value;
      if closeErr.Some? {
        return;
      }
      closeErr := Some(e);
      buf := [];
      if !closeWrite {
        closeWrite := true;
        writeNotify.Close();
      }
    }

    method CloseWrite()
      requires Valid()
      modifies this`closeWrite, writeNotify`closed
      ensures Valid() && View() == old(View()).(store := Stores.CloseWrite(old(View().store)))
    {
      if closeWrite {
        return;
      }
      closeWrite := true;
      writeNotify.Close();
    }

    method Reset()
      requires Valid()
      modifies this`buf
      ensures Valid() && View() == old(View()).(store := Stores.Reset(old(View().store)))
    {
      buf := [];
    }
  }
}
