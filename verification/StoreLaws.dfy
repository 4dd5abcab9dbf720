/** What callers of the three buffers can rely on: the answers of every operation, and
    what closing means for all operations that follow. */
module StoreLaws {
  import opened Common
  import opened Stores
  import opened NotifyStore
  import opened BlockBuffer

  // ---- What a write returns ----

  /** The window of the last n elements is the longest suffix of at most n. */
  lemma LastNIs<T>(s: seq<T>, n: nat)
    ensures |LastN(s, n)| <= n && |LastN(s, n)| <= |s| && (|LastN(s, n)| == n || LastN(s, n) == s)
    ensures s[..|s| - |LastN(s, n)|] + LastN(s, n) == s
  {
  }

  /** p added one element at a time, up to the first refusal: how many were accepted, and
      the refusal. */
  function AddRun<T>(kind: Kind, s: Notified<T>, p: seq<T>): (r: (nat, Option<Error>))
    decreases |p|
  {
    if p == [] then (0, None)
    else
      var (s', out) := Add(kind, s, p[0]);
      if out.Failed? then (0, Some(out.error))
      else var (n, e) := AddRun(kind, s', p[1..]); (n + 1, e)
  }

  lemma {:induction false} AllOrNothing<T>(kind: Kind, s: Notified<T>, p: seq<T>)
    ensures AddRun(kind, s, p)
      == if p == [] then (0, None) else if WriteRefusal(s.store).Some? then (0, WriteRefusal(s.store)) else (|p|, None)
    decreases |p|
  {
    if p != [] {
      AllOrNothing(kind, Add(kind, s, p[0]).0, p[1..]);
    }
  }

  /** A write returns the number of elements that adding them one at a time accepts, and
      fails with the error of the first refusal; it never waits. */
  lemma WriteCountsAdds<T>(kind: Kind, s: Notified<T>, p: seq<T>)
    requires p != []
    ensures var (n, e) := AddRun(kind, s, p);
      && Write(kind, s, p).1 == (if e.Some? then Failed(e.value) else Returned(n))
      && (e.None? ==> n == |p|)
      && forall err :: Write(kind, s, p).1 == Failed(err) <==> Add(kind, s, p[0]).1 == Failed(err)
  {
    AllOrNothing(kind, s, p);
  }

  /** Writing nothing to an open buffer returns 0. */
  lemma WriteNothing<T>(kind: Kind, s: Notified<T>)
    requires WriteRefusal(s.store).None?
    ensures Write(kind, s, []).1 == Returned(0)
  {
  }

  // ---- One section of BlockBuffer ----

  /** A producer's section accepts a prefix, in order behind what is there; it is done iff
      that is all, waits iff the buffer is full before it is, and fails iff the buffer is
      closed, taking nothing. */
  lemma PutIff<T>(s: Store<T>, cap: nat, p: seq<T>)
    requires |s.items| <= cap
    ensures var (s', n, out) := Put(s, cap, p);
      && n <= |p| && s'.items == s.items + p[..n] && |s'.items| <= cap
      && s' == s.(items := s'.items)
      && (out.Failed? <==> s.closeWrite || s.closeErr.Some?)
      && (out.Failed? ==> n == 0 && s' == s)
      && (out.Returned? <==> !out.Failed? && n == |p|)
      && (out.Waits? <==> !out.Failed? && n < |p| && |s'.items| == cap)
  {
    assert s.items + p[..0] == s.items;
  }

  /** A write that had to wait: its sections together are one write of all of p, once the
      space is there. */
  lemma PutResumes<T>(s: Store<T>, cap: nat, p: seq<T>, room: nat)
    requires |s.items| <= cap <= room && Put(s, cap, p).2.Waits?
    ensures var (s1, n1, _) := Put(s, cap, p);
      var (s2, n2, out) := Put(s1, room, p[n1..]);
      (s2, n1 + n2, out) == Put(s, room, p)
  {
    var (s1, n1, _) := Put(s, cap, p);
    PutIff(s, cap, p);
    Resumed(s.items, p, n1, Put(s1, room, p[n1..]).1);
  }

  lemma Resumed<T>(items: seq<T>, p: seq<T>, n1: nat, n2: nat)
    requires n1 + n2 <= |p|
    ensures items + p[..n1] + p[n1..][..n2] == items + p[..n1 + n2]
  {
  }

  // ---- What a read returns ----

  /** Readers get the oldest elements, as many as they have room for; end of stream iff
      empty and write-closed; they wait iff empty and open; and an error close wins over
      data that is still there. */
  lemma TakeIff<T>(s: Store<T>, k: nat, done: Error)
    ensures var (s', out) := Take(s, k, done);
      && s' == s.(items := s'.items)
      && (out.Returned? <==> s.closeErr.None? && s.items != [])
      && (out.Returned? ==> out.value + s'.items == s.items && (|out.value| == k || (|out.value| < k && s'.items == [])))
      && (out.Waits? <==> s.closeErr.None? && s.items == [] && !s.closeWrite)
      && (out.Failed? <==> s.closeErr.Some? || (s.items == [] && s.closeWrite))
      && (out.Failed? ==> s' == s && out.error == if s.closeErr.Some? then Wrapped(READ_CLOSED, s.closeErr.value) else done)
  {
  }

  /** Discarding is reading without looking, but never waits. */
  lemma DiscardIsTake<T>(s: Store<T>, n: nat, done: Error)
    ensures var (s', out) := Discard(s, n);
      && s' == Take(s, n, done).0
      && (out == Returned(()) <==> s.closeErr.None?)
      && (out.Failed? <==> s.closeErr.Some?)
      && (out.Failed? ==> out.error == Wrapped(SKIP_CLOSED, s.closeErr.value))
  {
    if s.items == [] {
      assert s.items[Min(n, |s.items|)..] == s.items;
    }
  }

  // ---- Closing, over everything that follows ----

  datatype Op<T> =
    | Writing(p: seq<T>) | Adding(t: T) | Taking(k: nat) | Discarding(n: nat)
    | ClosingWrite | ClosingWithError(err: Option<Error>) | Resetting

  function Do<T>(kind: Kind, s: Notified<T>, op: Op<T>): Notified<T> {
    match op
    case Writing(p) => Write(kind, s, p).0
    case Adding(t) => Add(kind, s, t).0
    case Taking(k) => s.(store := Take(s.store, k, ErrEOF).0)
    case Discarding(n) => s.(store := Discard(s.store, n).0)
    case ClosingWrite => s.(store := Stores.CloseWrite(s.store))
    case ClosingWithError(err) => s.(store := NotifyStore.CloseWithError(kind, s.store, err))
    case Resetting => s.(store := Reset(s.store))
  }

  function DoAll<T>(kind: Kind, s: Notified<T>, ops: seq<Op<T>>): Notified<T>
    decreases |ops|
  {
    if ops == [] then s else DoAll(kind, Do(kind, s, ops[0]), ops[1..])
  }

  /** What follows cannot reopen a buffer, and cannot put another error in place of one. */
  lemma {:induction false} ClosedStays<T>(kind: Kind, s: Notified<T>, ops: seq<Op<T>>)
    ensures s.store.closeWrite ==> DoAll(kind, s, ops).store.closeWrite
    ensures s.store.closeErr.Some? ==> DoAll(kind, s, ops).store.closeErr == s.store.closeErr
    decreases |ops|
  {
    if ops != [] {
      ClosedStays(kind, Do(kind, s, ops[0]), ops[1..]);
    }
  }

  /** The first error sticks: after closing with err a buffer that had no error yet,
      whatever is called afterwards, other closes included, every read, write and discard
      fails with that error (io.ErrClosedPipe if none was given), data or not. */
  lemma FirstErrorSticks<T>(kind: Kind, s: Notified<T>, err: Option<Error>, ops: seq<Op<T>>, t: T, k: nat)
    requires s.store.closeErr.None?
    ensures var e := if err.None? then ErrClosedPipe else err.value;
      var s' := DoAll(kind, Do(kind, s, ClosingWithError(err)), ops);
      && Take(s'.store, k, ErrEOF).1 == Failed(Wrapped(READ_CLOSED, e))
      && Add(kind, s', t).1 == Failed(Wrapped(WRITE_CLOSED, e))
      && Write(kind, s', [t]).1 == Failed(Wrapped(WRITE_CLOSED, e))
      && Discard(s'.store, k).1 == Failed(Wrapped(SKIP_CLOSED, e))
  {
    ClosedStays(kind, Do(kind, s, ClosingWithError(err)), ops);
  }

  /** What an error close does to the data: a `Buffer` drops it, a ring keeps it; closing
      again changes nothing. */
  lemma ErrorCloseKeepsOrDrops<T>(kind: Kind, s: Store<T>, err: Option<Error>, again: Option<Error>)
    ensures var s' := NotifyStore.CloseWithError(kind, s, err);
      && (s.closeErr.None? ==> s'.items == if kind.Growable? then [] else s.items)
      && s'.closeErr.Some? && (s.closeErr.Some? ==> s' == s)
      && (s.closeErr.None? ==> s'.closeWrite)
      && NotifyStore.CloseWithError(kind, s', again) == s'
    ensures var s' := Stores.CloseWithError(s, err);
      s'.items == s.items && s'.closeErr.Some? && Stores.CloseWithError(s', again) == s'
  {
  }

  /** After CloseWrite alone, whatever is called afterwards short of an error close, every
      write is refused with io.ErrClosedPipe, and reads hand out what is there before
      they report the end: they never wait again. */
  lemma WritesEnd<T>(kind: Kind, s: Notified<T>, ops: seq<Op<T>>, t: T, k: nat, done: Error)
    requires s.store.closeErr.None? && forall op :: op in ops ==> !op.ClosingWithError?
    ensures var s' := DoAll(kind, Do(kind, s, ClosingWrite), ops);
      && Add(kind, s', t).1 == Failed(Wrapped(WRITE_CLOSED, ErrClosedPipe))
      && Write(kind, s', [t]).1 == Failed(Wrapped(WRITE_CLOSED, ErrClosedPipe))
      && (Take(s'.store, k, done).1 == Failed(done) <==> s'.store.items == [])
      && (Take(s'.store, k, done).1.Returned? <==> s'.store.items != [])
  {
    ClosedStays(kind, Do(kind, s, ClosingWrite), ops);
    NoError(kind, Do(kind, s, ClosingWrite), ops);
  }

  lemma {:induction false} NoError<T>(kind: Kind, s: Notified<T>, ops: seq<Op<T>>)
    requires s.store.closeErr.None? && forall op :: op in ops ==> !op.ClosingWithError?
    ensures DoAll(kind, s, ops).store.closeErr.None?
    decreases |ops|
  {
    if ops != [] {
      assert ops[0] in ops;
      NoError(kind, Do(kind, s, ops[0]), ops[1..]);
    }
  }

  /** n reads of at least one element each: everything they hand out, and how the last ends. */
  function Drained<T>(s: Store<T>, ks: seq<nat>, done: Error): (r: (seq<T>, Store<T>))
    decreases |ks|
  {
    if ks == [] then ([], s)
    else
      var (s', out) := Take(s, ks[0], done);
      var (rest, last) := Drained(s', ks[1..], done);
      ((if out.Returned? then out.value else []) + rest, last)
  }

  lemma {:induction false} DrainConserves<T>(s: Store<T>, ks: seq<nat>, done: Error)
    requires s.closeErr.None?
    ensures var (got, last) := Drained(s, ks, done);
      got + last.items == s.items && last == s.(items := last.items)
    decreases |ks|
  {
    if ks != [] {
      TakeIff(s, ks[0], done);
      DrainConserves(Take(s, ks[0], done).0, ks[1..], done);
    }
  }

  lemma {:induction false} DrainEmpties<T>(s: Store<T>, ks: seq<nat>, done: Error)
    requires s.closeErr.None? && forall k :: k in ks ==> k > 0
    ensures |ks| >= |s.items| ==> Drained(s, ks, done).1.items == []
    decreases |ks|
  {
    if ks != [] {
      assert ks[0] in ks && forall k :: k in ks[1..] ==> k in ks;
      DrainEmpties(Take(s, ks[0], done).0, ks[1..], done);
    }
  }

  /** Reading a closed buffer to its end hands out exactly the remainder, in order, and
      only then reports the end. */
  lemma RemainderThenEnd<T>(s: Store<T>, ks: seq<nat>, done: Error)
    requires s.closeErr.None? && s.closeWrite && |ks| >= |s.items| && forall k :: k in ks ==> k > 0
    ensures var (got, last) := Drained(s, ks, done);
      got == s.items && Take(last, 1, done).1 == Failed(done)
  {
    DrainConserves(s, ks, done);
    DrainEmpties(s, ks, done);
  }
}
