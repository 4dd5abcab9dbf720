/** Threads sharing one BlockBuffer through its single condition variable, over all
    interleavings of their critical sections. */
module BlockProtocol {
  import opened Common
  import opened Stores
  import opened BlockBuffer
  import opened Runs

  datatype Role = Producer | Consumer

  /** What a thread has left to do: take up to k elements, or write p. */
  datatype Op<T> = Consume(k: nat) | Produce(p: seq<T>)

  /** Waiting: inside `cond.Wait`. Woken: signalled, not yet back under the lock. */
  datatype Pc<T> = Idle | Waiting(op: Op<T>) | Woken(op: Op<T>)

  datatype Config = Config(roles: seq<Role>, cap: nat)

  /** produced and consumed log every element accepted and handed out; sawEnd says
      that some consumer was told the stream has ended. */
  datatype State<T> = State(q: Store<T>, pcs: seq<Pc<T>>, produced: seq<T>, consumed: seq<T>, sawEnd: bool)

  function Start<T>(c: Config): State<T> {
    State(Stores.Empty(), seq(|c.roles|, i => Idle), [], [], false)
  }

  predicate Fits<T>(role: Role, op: Op<T>) { role.Producer? <==> op.Produce? }

  /** `cond.Signal` wakes some waiting thread w if there is one. */
  ghost predicate MayWake<T>(pcs: seq<Pc<T>>, w: nat) {
    (exists j :: 0 <= j < |pcs| && pcs[j].Waiting?) ==> w < |pcs| && pcs[w].Waiting?
  }

  function Signal<T>(pcs: seq<Pc<T>>, w: nat): (r: seq<Pc<T>>)
    ensures |r| == |pcs|
  {
    if w < |pcs| && pcs[w].Waiting? then pcs[w := Woken(pcs[w].op)] else pcs
  }

  function Broadcast<T>(pcs: seq<Pc<T>>): seq<Pc<T>> {
    seq(|pcs|, i requires 0 <= i < |pcs| => if pcs[i].Waiting? then Woken(pcs[i].op) else pcs[i])
  }

  /** Thread i runs one critical section of op; w is the thread it wakes, if it signals. */
  function Section<T>(c: Config, s: State<T>, i: nat, op: Op<T>, w: nat): State<T>
    requires i < |s.pcs| && |s.q.items| <= c.cap
  {
    var idle := s.pcs[i := Idle];
    match op
    case Consume(k) =>
      (var (q, out) := Take(s.q, k, ErrEOF);
       match out
       case Returned(v) => s.(q := q, pcs := Signal(idle, w), consumed := s.consumed + v)
       case Failed(e) => s.(q := q, pcs := idle, sawEnd := s.sawEnd || e == ErrEOF)
       case Waits => s.(q := q, pcs := idle[i := Waiting(op)]))
    case Produce(p) =>
      (var (q, n, out) := Put(s.q, c.cap, p);
       var woken := if n > 0 then Signal(idle, w) else idle;
       s.(q := q, pcs := if out.Waits? then woken[i := Waiting(Produce(p[n..]))] else woken,
          produced := s.produced + p[..n]))
  }

  /** A thread starts an operation of its role, or resumes the one it was woken from. */
  ghost predicate Acts<T>(c: Config, s: State<T>, i: nat, op: Op<T>, w: nat, s': State<T>) {
    && |s.pcs| == |c.roles| && i < |s.pcs| && |s.q.items| <= c.cap
    && ((s.pcs[i].Idle? && Fits(c.roles[i], op)) || s.pcs[i] == Woken(op))
    && MayWake(s.pcs[i := Idle], w)
    && s' == Section(c, s, i, op, w)
  }

  /** Anybody may close; the first time, every waiting thread is woken. */
  ghost predicate Closes<T>(s: State<T>, err: Option<Error>, s': State<T>) {
    || s' == s.(q := Stores.CloseWrite(s.q), pcs := if s.q.closeWrite then s.pcs else Broadcast(s.pcs))
    || s' == s.(q := Stores.CloseWithError(s.q, err),
                pcs := if s.q.closeErr.Some? then s.pcs else Broadcast(s.pcs))
  }

  ghost predicate Step<T(!new)>(c: Config, s: State<T>, s': State<T>) {
    (exists i, op, w :: Acts(c, s, i, op, w, s')) || (exists err :: Closes(s, err, s'))
  }

  ghost function StepOf<T(!new)>(c: Config): (State<T>, State<T>) -> bool {
    (s, s') => Step(c, s, s')
  }

  ghost predicate Reachable<T(!new)>(c: Config, s: State<T>) {
    Leads(StepOf(c), Start(c), s)
  }

  // ---- Conservation, for any number of producers and consumers ----

  /** The threads go about operations of their roles on a buffer within its capacity. */
  ghost predicate Sound<T>(c: Config, s: State<T>) {
    && |s.pcs| == |c.roles| && |s.q.items| <= c.cap
    && (s.q.closeErr.Some? ==> s.q.closeWrite)
    && forall i :: 0 <= i < |s.pcs| && !s.pcs[i].Idle? ==> Fits(c.roles[i], s.pcs[i].op)
  }

  ghost predicate Conserved<T>(c: Config, s: State<T>) {
    && Sound(c, s)
    && s.consumed + s.q.items == s.produced
    && (s.sawEnd ==> s.q.items == [] && s.q.closeWrite)
  }

  lemma SectionConserves<T>(c: Config, s: State<T>, i: nat, op: Op<T>, w: nat, s': State<T>)
    requires Conserved(c, s) && Acts(c, s, i, op, w, s')
    ensures Conserved(c, s')
  {
    match op
    case Consume(k) =>
      var n := Min(k, |s.q.items|);
      assert s.q.items == s.q.items[..n] + s.q.items[n..];
    case Produce(p) =>
      var n := Put(s.q, c.cap, p).1;
      assert s.consumed + (s.q.items + p[..n]) == s.consumed + s.q.items + p[..n];
  }

  lemma StepConserves<T(!new)>(c: Config, s: State<T>, s': State<T>)
    requires Conserved(c, s) && Step(c, s, s')
    ensures Conserved(c, s')
  {
    if i, op, w :| Acts(c, s, i, op, w, s') {
      SectionConserves(c, s, i, op, w, s');
    }
  }

  lemma ReachableConserved<T(!new)>(c: Config, s: State<T>)
    requires Reachable(c, s)
    ensures Conserved(c, s)
  {
    var inv := (t: State<T>) => Conserved(c, t);
    forall a, b | inv(a) && StepOf<T>(c)(a, b) ensures inv(b) {
      StepConserves(c, a, b);
    }
    Keeps(StepOf(c), inv, Start(c), s);
  }

  /** FIFO over every run, whoever takes part: what was consumed is a prefix of what
      was produced, the rest is in the buffer within its capacity, and a consumer that
      is told the stream ended has missed nothing, now or later. */
  lemma Fifo<T(!new)>(c: Config, s: State<T>)
    requires Reachable(c, s)
    ensures s.consumed + s.q.items == s.produced && |s.q.items| <= c.cap
    ensures s.sawEnd ==> s.q.closeWrite && s.consumed == s.produced
  {
    ReachableConserved(c, s);
  }

  // ---- Wake-ups ----

  ghost predicate WakeSafe<T>(c: Config, s: State<T>) {
    forall i :: 0 <= i < |s.pcs| && s.pcs[i].Waiting? ==>
      !s.q.closeWrite &&
      match s.pcs[i].op
      case Consume(_) => s.q.items == []
      case Produce(_) => |s.q.items| == c.cap
  }

  ghost predicate AllWaiting<T>(s: State<T>) {
    forall i :: 0 <= i < |s.pcs| ==> s.pcs[i].Waiting?
  }

  ghost predicate OnePair(c: Config) {
    |c.roles| == 2 && c.roles[0] != c.roles[1]
  }

  lemma SectionWakeSafe<T>(c: Config, s: State<T>, i: nat, op: Op<T>, w: nat, s': State<T>)
    requires OnePair(c) && Sound(c, s) && WakeSafe(c, s) && Acts(c, s, i, op, w, s')
    ensures WakeSafe(c, s')
  {
    var j := 1 - i;
    match op {
      case Consume(k) =>
        assert s.pcs[j].Waiting? ==> Fits(c.roles[j], s.pcs[j].op);
      case Produce(p) =>
        assert s.pcs[j].Waiting? ==> Fits(c.roles[j], s.pcs[j].op);
    }
  }

  lemma StepWakeSafe<T(!new)>(c: Config, s: State<T>, s': State<T>)
    requires OnePair(c) && Sound(c, s) && WakeSafe(c, s) && Step(c, s, s')
    ensures WakeSafe(c, s')
  {
    if i: nat, op, w :| Acts(c, s, i, op, w, s') {
      SectionWakeSafe(c, s, i, op, w, s');
    }
  }

  /** One producer and one consumer lose no wake-up: a waiting consumer faces an empty
      open buffer and a waiting producer a full open one, so they never both wait. */
  lemma NoLostWakeUp<T(!new)>(c: Config, s: State<T>)
    requires OnePair(c) && 0 < c.cap && Reachable(c, s)
    ensures WakeSafe(c, s) && !AllWaiting(s)
  {
    var inv := (t: State<T>) => Conserved(c, t) && WakeSafe(c, t);
    forall a, b | inv(a) && StepOf<T>(c)(a, b) ensures inv(b) {
      StepConserves(c, a, b);
      StepWakeSafe(c, a, b);
    }
    Keeps(StepOf(c), inv, Start(c), s);
    assert s.pcs[0].Waiting? ==> Fits(c.roles[0], s.pcs[0].op);
    assert s.pcs[1].Waiting? ==> Fits(c.roles[1], s.pcs[1].op);
  }
}
