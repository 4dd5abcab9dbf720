/** Readers of a `Buffer` or `RingBuffer` block on the notification channel without
    holding the lock, while others write, discard, reset and close. All interleavings
    of critical sections and receives. */
module NotifyProtocol {
  import opened Common
  import opened Stores
  import opened NotifyStore
  import opened Runs

  /** AtReceive: found the buffer empty, released the lock, and blocks on the channel.
      Received: got a token or saw the channel closed, not yet back under the lock. */
  datatype Pc = Outside | AtReceive | Received

  /** blockWrites: whether anybody uses `Write`, as opposed to `Add` only. */
  datatype Config = Config(kind: Kind, readers: nat, blockWrites: bool)

  datatype State<T> = State(b: Notified<T>, pcs: seq<Pc>)

  function Start<T>(c: Config): State<T> {
    State(Notified(Stores.Empty(), false), seq(c.readers, i => Outside))
  }

  /** Reader i runs one pass of Read or Next with room for k elements. */
  ghost predicate Pass<T>(s: State<T>, i: nat, k: nat, s': State<T>) {
    && i < |s.pcs| && !s.pcs[i].AtReceive?
    && var (store, out) := Take(s.b.store, k, ErrEOF);
       s' == State(s.b.(store := store), s.pcs[i := if out.Waits? then AtReceive else Outside])
  }

  /** Reader i gets out of `<-writeNotify`, with the token if there is one. */
  ghost predicate Receives<T>(s: State<T>, i: nat, s': State<T>) {
    && i < |s.pcs| && s.pcs[i].AtReceive?
    && (s.b.token || s.b.store.closeWrite)
    && s' == State(s.b.(token := false), s.pcs[i := Received])
  }

  ghost predicate Writes<T>(c: Config, s: State<T>, p: seq<T>, s': State<T>) {
    || (c.blockWrites && s' == s.(b := Write(c.kind, s.b, p).0))
    || (p != [] && s' == s.(b := Add(c.kind, s.b, p[0]).0))
  }

  /** Anybody discards, resets or closes. */
  ghost predicate Others<T>(c: Config, s: State<T>, n: nat, err: Option<Error>, s': State<T>) {
    && s'.pcs == s.pcs && s'.b.token == s.b.token
    && var (store, store') := (s.b.store, s'.b.store);
       || store' == Stores.Discard(store, n).0
       || store' == Stores.Reset(store)
       || store' == Stores.CloseWrite(store)
       || store' == NotifyStore.CloseWithError(c.kind, store, err)
  }

  ghost predicate Step<T(!new)>(c: Config, s: State<T>, s': State<T>) {
    || (exists i, k :: Pass(s, i, k, s'))
    || (exists i :: Receives(s, i, s'))
    || (exists p :: Writes(c, s, p, s'))
    || (exists n, err :: Others(c, s, n, err, s'))
  }

  ghost function StepOf<T(!new)>(c: Config): (State<T>, State<T>) -> bool {
    (s, s') => Step(c, s, s')
  }

  ghost predicate Reachable<T(!new)>(c: Config, s: State<T>) {
    Leads(StepOf(c), Start(c), s)
  }

  /** A reader blocked on the channel while there is data finds a token or a closed
      channel, or at least another reader is on its way to the data. */
  ghost predicate NoLostWakeUp<T>(s: State<T>) {
    forall i :: 0 <= i < |s.pcs| && s.pcs[i].AtReceive? && s.b.store.items != [] ==>
      s.b.token || s.b.store.closeWrite || exists j :: 0 <= j < |s.pcs| && s.pcs[j].Received?
  }

  /** Enough notification for the readers there are. */
  predicate Notifies(c: Config) {
    c.readers == 0 || (c.readers == 1 && (c.kind.Growable? || !c.blockWrites))
  }

  lemma StepNotifies<T(!new)>(c: Config, s: State<T>, s': State<T>)
    requires Notifies(c) && |s.pcs| == c.readers && NoLostWakeUp(s) && Step(c, s, s')
    ensures |s'.pcs| == c.readers && NoLostWakeUp(s')
  {
  }

  /** For any number of writers, over all runs: the one reader at `<-writeNotify` with
      data present always finds a token or a closed channel. */
  lemma ReaderWakes<T(!new)>(c: Config, s: State<T>)
    requires Notifies(c) && Reachable(c, s)
    ensures NoLostWakeUp(s)
    ensures forall i :: 0 <= i < |s.pcs| && s.pcs[i].AtReceive? && s.b.store.items != [] ==>
      s.b.token || s.b.store.closeWrite
  {
    var inv := (t: State<T>) => |t.pcs| == c.readers && NoLostWakeUp(t);
    forall a, b | inv(a) && StepOf<T>(c)(a, b) ensures inv(b) {
      StepNotifies(c, a, b);
    }
    Keeps(StepOf(c), inv, Start(c), s);
  }

  lemma Then<T(!new)>(c: Config, s: State<T>, s': State<T>)
    requires Reachable(c, s) && Step(c, s, s')
    ensures Reachable(c, s')
  {
    assert StepOf<T>(c)(s, s');
    Extend(StepOf(c), Start(c), s, s');
  }

  /** A RingBuffer reader that waits is not told about a block write. */
  lemma RingWriteIsSilent<T(!new)>(c: Config, x: T) returns (s: State<T>)
    requires 0 < c.readers && c.kind.Ring? && 0 < c.kind.cap && c.blockWrites
    ensures Reachable(c, s) && !NoLostWakeUp(s)
  {
    var s0 := Start<T>(c);
    Stay(StepOf(c), s0);
    var s1 := s0.(pcs := s0.pcs[0 := AtReceive]);
    assert Pass(s0, 0, 1, s1);
    Then(c, s0, s1);
    s := s1.(b := Write(c.kind, s1.b, [x]).0);
    assert Writes(c, s1, [x], s);
    Then(c, s1, s);
    assert s.pcs[0].AtReceive? && s.b.store.items == [x];
  }

  /** Readers 0 and 1 block on the empty buffer. */
  lemma TwoBlock<T(!new)>(c: Config) returns (s: State<T>)
    requires 2 <= c.readers
    ensures Reachable(c, s) && s.b == Start<T>(c).b
    ensures s.pcs == Start<T>(c).pcs[0 := AtReceive][1 := AtReceive]
  {
    var s0 := Start<T>(c);
    Stay(StepOf(c), s0);
    var s1 := s0.(pcs := s0.pcs[0 := AtReceive]);
    assert Pass(s0, 0, 1, s1);
    Then(c, s0, s1);
    s := s1.(pcs := s1.pcs[1 := AtReceive]);
    assert Pass(s1, 1, 1, s);
    Then(c, s1, s);
  }

  /** Two elements arrive, then reader 0 takes the one token. */
  lemma OneOfTwoReceives<T(!new)>(c: Config, x: T) returns (s: State<T>)
    requires 2 <= c.readers && (c.kind.Ring? ==> 0 < c.kind.cap)
    ensures Reachable(c, s) && !s.b.token && !s.b.store.closeWrite && s.b.store.closeErr.None?
    ensures s.b.store.items != []
    ensures s.pcs == Start<T>(c).pcs[1 := AtReceive][0 := Received]
  {
    var s2 := TwoBlock<T>(c);
    var s3 := AddOne(c, s2, x);
    var s4 := AddOne(c, s3, x);
    s := State(s4.b.(token := false), s4.pcs[0 := Received]);
    assert Receives(s4, 0, s);
    Then(c, s4, s);
  }

  lemma AddOne<T(!new)>(c: Config, s: State<T>, x: T) returns (s': State<T>)
    requires Reachable(c, s) && (c.kind.Ring? ==> 0 < c.kind.cap)
    requires !s.b.store.closeWrite && s.b.store.closeErr.None?
    ensures Reachable(c, s') && s'.pcs == s.pcs && s'.b.token && s'.b.store.items != []
    ensures !s'.b.store.closeWrite && s'.b.store.closeErr.None?
  {
    s' := s.(b := Add(c.kind, s.b, x).0);
    assert Writes(c, s, [x], s');
    Then(c, s, s');
  }

  /** Two readers wait, and two elements arrive before the one token is used. The first
      reader leaves one of them behind: by taking one of the two or, if the ring holds
      only one, by reading into an empty slice. */
  lemma TokenIsShared<T(!new)>(c: Config, x: T) returns (s: State<T>)
    requires 2 <= c.readers && (c.kind.Ring? ==> 0 < c.kind.cap)
    ensures Reachable(c, s) && !NoLostWakeUp(s)
  {
    var s5 := OneOfTwoReceives(c, x);
    var k := |s5.b.store.items| - 1;
    s := State(s5.b.(store := Take(s5.b.store, k, ErrEOF).0), s5.pcs[0 := Outside]);
    assert Pass(s5, 0, k, s);
    Then(c, s5, s);
    assert s.pcs[1].AtReceive? && s.b.store.items != [];
  }

  /** Exactly when no reader is ever left blocked with data in the buffer. */
  lemma NoLostWakeUpIff<T(!new)>(c: Config, x: T)
    requires c.kind.Ring? ==> 0 < c.kind.cap
    ensures (forall s: State<T> :: Reachable(c, s) ==> NoLostWakeUp(s)) <==> Notifies(c)
  {
    if Notifies(c) {
      forall s: State<T> | Reachable(c, s) ensures NoLostWakeUp(s) {
        ReaderWakes(c, s);
      }
    } else if c.readers >= 2 {
      var s := TokenIsShared(c, x);
    } else {
      var s := RingWriteIsSilent(c, x);
    }
  }
}
