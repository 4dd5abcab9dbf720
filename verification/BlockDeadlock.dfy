/** Why the wake-up guarantee of BlockBuffer stops at one producer and one consumer:
    with a third thread, a signal can reach a thread of the wrong kind. */
module BlockDeadlock {
  import opened Common
  import opened Stores
  import opened BlockBuffer
  import opened Runs
  import opened BlockProtocol

  /** The idle threads of a role among the first n, all waiting in op. */
  function Park<T>(c: Config, pcs: seq<Pc<T>>, role: Role, op: Op<T>, n: nat): seq<Pc<T>>
    requires |pcs| == |c.roles|
  {
    seq(|pcs|, i requires 0 <= i < |pcs| =>
      if i < n && c.roles[i] == role && pcs[i].Idle? then Waiting(op) else pcs[i])
  }

  /** op would wait if it ran now. */
  predicate Blocks<T>(c: Config, s: State<T>, op: Op<T>) {
    && !s.q.closeWrite && s.q.closeErr.None?
    && match op
       case Consume(_) => s.q.items == []
       case Produce(p) => |s.q.items| == c.cap && p != []
  }

  lemma {:induction false} ParkAll<T(!new)>(c: Config, start: State<T>, s: State<T>, role: Role, op: Op<T>, n: nat)
    requires |s.pcs| == |c.roles| && n <= |c.roles| && |s.q.items| <= c.cap
    requires Leads(StepOf(c), start, s) && Blocks(c, s, op) && Fits(role, op)
    ensures Leads(StepOf(c), start, s.(pcs := Park(c, s.pcs, role, op, n)))
  {
    if n == 0 {
      assert Park(c, s.pcs, role, op, 0) == s.pcs;
    } else {
      ParkAll(c, start, s, role, op, n - 1);
      ParkNext(c, start, s, role, op, n - 1);
    }
  }

  lemma ParkNext<T(!new)>(c: Config, start: State<T>, s: State<T>, role: Role, op: Op<T>, i: nat)
    requires |s.pcs| == |c.roles| && i < |c.roles| && |s.q.items| <= c.cap
    requires Blocks(c, s, op) && Fits(role, op)
    requires Leads(StepOf(c), start, s.(pcs := Park(c, s.pcs, role, op, i)))
    ensures Leads(StepOf(c), start, s.(pcs := Park(c, s.pcs, role, op, i + 1)))
  {
    var before := s.(pcs := Park(c, s.pcs, role, op, i));
    var after := s.(pcs := Park(c, s.pcs, role, op, i + 1));
    if c.roles[i] == role && s.pcs[i].Idle? {
      var w := Waker(before.pcs[i := Idle]);
      assert after.pcs == before.pcs[i := Waiting(op)] == before.pcs[i := Idle][i := Waiting(op)];
      BlocksWaits(c, before, i, op, w);
      Act(c, start, before, i, op, w, after);
    } else {
      assert after.pcs == before.pcs;
    }
  }

  lemma BlocksWaits<T>(c: Config, s: State<T>, i: nat, op: Op<T>, w: nat)
    requires i < |s.pcs| && |s.q.items| <= c.cap && Blocks(c, s, op)
    ensures Section(c, s, i, op, w) == s.(pcs := s.pcs[i := Idle][i := Waiting(op)])
  {
    match op
    case Consume(_) =>
    case Produce(p) =>
      assert s.q.items + p[..0] == s.q.items && s.produced + p[..0] == s.produced && p[0..] == p;
  }

  /** Some thread a signal may wake. */
  lemma Waker<T>(pcs: seq<Pc<T>>) returns (w: nat)
    ensures MayWake(pcs, w)
  {
    w := 0;
    if j :| 0 <= j < |pcs| && pcs[j].Waiting? {
      w := j;
    }
  }

  lemma Act<T(!new)>(c: Config, start: State<T>, s: State<T>, i: nat, op: Op<T>, w: nat, s': State<T>)
    requires Leads(StepOf(c), start, s) && Acts(c, s, i, op, w, s')
    ensures Leads(StepOf(c), start, s')
  {
    assert StepOf<T>(c)(s, s');
    Extend(StepOf(c), start, s, s');
  }

  function Copies<T>(x: T, n: nat): (r: seq<T>)
    ensures |r| == n
  {
    seq(n, _ => x)
  }

  /** Every thread of a role is in pc, apart from thread except. */
  ghost predicate AllIn<T>(c: Config, s: State<T>, role: Role, pc: Pc<T>, except: nat) {
    && |s.pcs| == |c.roles|
    && forall i :: 0 <= i < |s.pcs| && i != except && c.roles[i] == role ==> s.pcs[i] == pc
  }

  ghost predicate Open<T(!new)>(c: Config, s: State<T>, n: nat) {
    !s.q.closeWrite && s.q.closeErr.None? && |s.q.items| == n && n <= c.cap && Reachable(c, s)
  }

  /** The idle threads of a role all run op and wait; nothing else changes. */
  lemma ParkRole<T(!new)>(c: Config, s: State<T>, role: Role, op: Op<T>, except: nat) returns (s': State<T>)
    requires Open(c, s, |s.q.items|) && Blocks(c, s, op) && Fits(role, op)
    requires AllIn(c, s, role, Idle, except)
    ensures Open(c, s', |s.q.items|) && AllIn(c, s', role, Waiting(op), except)
    ensures forall i :: 0 <= i < |s.pcs| && (c.roles[i] != role || !s.pcs[i].Idle?) ==> s'.pcs[i] == s.pcs[i]
    ensures forall i :: 0 <= i < |s.pcs| && c.roles[i] == role ==> !s'.pcs[i].Idle?
  {
    ParkAll(c, Start(c), s, role, op, |c.roles|);
    s' := s.(pcs := Park(c, s.pcs, role, op, |c.roles|));
  }

  /** A producer with more than fits fills the buffer, wakes w, and waits. */
  lemma Overfill<T(!new)>(c: Config, s: State<T>, i: nat, put: Op<T>, w: nat) returns (s': State<T>)
    requires Open(c, s, 0) && |s.pcs| == |c.roles| && i < |s.pcs| && put.Produce? && c.cap < |put.p|
    requires 0 < c.cap && ((s.pcs[i].Idle? && c.roles[i].Producer?) || s.pcs[i] == Woken(put))
    requires w != i && MayWake(s.pcs[i := Idle], w)
    ensures Open(c, s', c.cap) && |s'.pcs| == |s.pcs|
    ensures s'.pcs == Signal(s.pcs[i := Idle], w)[i := Waiting(Produce(put.p[c.cap..]))]
  {
    s' := Section(c, s, i, put, w);
    Act(c, Start(c), s, i, put, w, s');
  }

  /** A consumer empties the full buffer, wakes w, and is idle again. */
  lemma TakeAll<T(!new)>(c: Config, s: State<T>, i: nat, w: nat) returns (s': State<T>)
    requires Open(c, s, c.cap) && |s.pcs| == |c.roles| && i < |s.pcs| && 0 < c.cap
    requires (s.pcs[i].Idle? && c.roles[i].Consumer?) || s.pcs[i] == Woken(Consume(c.cap))
    requires w != i && MayWake(s.pcs[i := Idle], w)
    ensures Open(c, s', 0) && s'.pcs == Signal(s.pcs[i := Idle], w)
  {
    s' := Section(c, s, i, Consume(c.cap), w);
    Act(c, Start(c), s, i, Consume(c.cap), w, s');
  }

  /** A thread that was woken for nothing waits again. */
  lemma WaitAgain<T(!new)>(c: Config, s: State<T>, i: nat, op: Op<T>) returns (s': State<T>)
    requires Open(c, s, |s.q.items|) && |s.pcs| == |c.roles| && i < |s.pcs| && Blocks(c, s, op)
    requires s.pcs[i] == Woken(op) || (s.pcs[i].Idle? && Fits(c.roles[i], op))
    ensures Open(c, s', |s.q.items|) && s'.pcs == s.pcs[i := Waiting(op)]
  {
    var w := Waker(s.pcs[i := Idle]);
    s' := Section(c, s, i, op, w);
    Act(c, Start(c), s, i, op, w, s');
  }

  ghost predicate WaitingBut<T>(s: State<T>, i: nat) {
    forall j :: 0 <= j < |s.pcs| && j != i ==> s.pcs[j].Waiting?
  }

  /** All consumers wait, then all producers: the first of them fills the buffer and
      wakes consumer c1. */
  lemma FullWithOneAwake<T(!new)>(c: Config, c1: nat, p: nat, x: T) returns (s: State<T>)
    requires 0 < c.cap && c1 < |c.roles| && p < |c.roles|
    requires c.roles[c1] == Consumer && c.roles[p] == Producer
    ensures Open(c, s, c.cap) && |s.pcs| == |c.roles| && WaitingBut(s, c1)
    ensures s.pcs[c1] == Woken(Consume(c.cap))
    ensures AllIn(c, s, Consumer, Waiting(Consume(c.cap)), c1)
  {
    var take: Op<T>, put: Op<T> := Consume(c.cap), Produce(Copies(x, c.cap + 1));
    Stay(StepOf(c), Start<T>(c));
    var s1 := ParkRole(c, Start(c), Consumer, take, |c.roles|);
    assert s1.pcs[c1] == Waiting(take);
    var s2 := Overfill(c, s1, p, put, c1);
    assert AllIn(c, s2, Consumer, Waiting(take), c1) && AllIn(c, s2, Producer, Idle, p);
    s := ParkRole(c, s2, Producer, put, p);
  }

  /** Two consumers: the signal meant for the producer wakes the other consumer. All
      threads end up waiting although the buffer is empty. */
  lemma StarveProducers<T(!new)>(c: Config, c1: nat, c2: nat, p: nat, x: T) returns (s: State<T>)
    requires 0 < c.cap && c1 < |c.roles| && c2 < |c.roles| && p < |c.roles| && c1 != c2
    requires c.roles[c1] == c.roles[c2] == Consumer && c.roles[p] == Producer
    ensures Reachable(c, s) && AllWaiting(s) && s.q.items == []
  {
    var take: Op<T> := Consume(c.cap);
    var s1 := FullWithOneAwake(c, c1, p, x);
    assert s1.pcs[c2] == Waiting(take);
    var s2 := TakeAll(c, s1, c1, c2);
    var s3 := WaitAgain(c, s2, c2, take);
    assert s3.pcs == s1.pcs[c1 := Idle];
    s := WaitAgain(c, s3, c1, take);
  }

  /** All producers wait on the full buffer, the first with a rest. */
  lemma FullAndWaiting<T(!new)>(c: Config, p1: nat, put: Op<T>) returns (s: State<T>)
    requires 0 < c.cap && p1 < |c.roles| && c.roles[p1] == Producer
    requires put.Produce? && |put.p| == 2 * c.cap + 1
    ensures Open(c, s, c.cap) && |s.pcs| == |c.roles| && s.pcs[p1] == Waiting(Produce(put.p[c.cap..]))
    ensures AllIn(c, s, Producer, Waiting(put), p1) && AllIn(c, s, Consumer, Idle, |c.roles|)
  {
    Stay(StepOf(c), Start<T>(c));
    var s1 := Overfill(c, Start(c), p1, put, |c.roles|);
    assert AllIn(c, s1, Producer, Idle, p1) && AllIn(c, s1, Consumer, Idle, |c.roles|);
    s := ParkRole(c, s1, Producer, put, p1);
  }

  /** All producers wait on the full buffer; one consumer empties it and wakes p1; then
      all consumers wait. */
  lemma EmptyWithOneAwake<T(!new)>(c: Config, p1: nat, k: nat, put: Op<T>) returns (s: State<T>)
    requires 0 < c.cap && p1 < |c.roles| && k < |c.roles|
    requires c.roles[p1] == Producer && c.roles[k] == Consumer
    requires put.Produce? && |put.p| == 2 * c.cap + 1
    ensures Open(c, s, 0) && |s.pcs| == |c.roles| && WaitingBut(s, p1)
    ensures s.pcs[p1] == Woken(Produce(put.p[c.cap..]))
    ensures AllIn(c, s, Producer, Waiting(put), p1)
  {
    var s2 := FullAndWaiting(c, p1, put);
    var s3 := TakeAll(c, s2, k, p1);
    assert AllIn(c, s3, Consumer, Idle, |c.roles|) && AllIn(c, s3, Producer, Waiting(put), p1);
    s := ParkRole(c, s3, Consumer, Consume(c.cap), |c.roles|);
  }

  /** Two producers: the signal meant for the consumer wakes the other producer. All
      threads end up waiting although the buffer is full. */
  lemma StarveConsumers<T(!new)>(c: Config, p1: nat, p2: nat, k: nat, x: T) returns (s: State<T>)
    requires 0 < c.cap && p1 < |c.roles| && p2 < |c.roles| && k < |c.roles| && p1 != p2
    requires c.roles[p1] == c.roles[p2] == Producer && c.roles[k] == Consumer
    ensures Reachable(c, s) && AllWaiting(s) && |s.q.items| == c.cap
  {
    var put: Op<T> := Produce(Copies(x, 2 * c.cap + 1));
    var s1 := EmptyWithOneAwake(c, p1, k, put);
    assert s1.pcs[p2] == Waiting(put);
    var s2 := Overfill(c, s1, p1, Produce(put.p[c.cap..]), p2);
    assert WaitingBut(s2, p2) && s2.pcs[p2] == Woken(put);
    s := WaitAgain(c, s2, p2, put);
  }

  /** Exactly when the shared condition variable is enough: threads of both kinds can
      never all end up waiting iff there is one of each. */
  lemma NeverAllWaitingIff<T(!new)>(c: Config, i: nat, j: nat, x: T)
    requires 0 < c.cap && i < |c.roles| && j < |c.roles|
    requires c.roles[i] == Producer && c.roles[j] == Consumer
    ensures (forall s: State<T> :: Reachable(c, s) ==> !AllWaiting(s)) <==> |c.roles| == 2
  {
    if |c.roles| == 2 {
      forall s: State<T> | Reachable(c, s) ensures !AllWaiting(s) {
        NoLostWakeUp(c, s);
      }
    } else {
      var k := if 0 !in {i, j} then 0 else if 1 !in {i, j} then 1 else 2;
      if c.roles[k].Producer? {
        var s := StarveConsumers(c, i, k, j, x);
      } else {
        var s := StarveProducers(c, j, k, i, x);
      }
    }
  }

  /** Discard and Reset empty the buffer without a signal. Even with one producer and
      one consumer, one such call is enough to leave every thread waiting on an empty
      open buffer. */
  lemma DiscardStrands<T(!new)>(c: Config, p1: nat, k: nat, x: T) returns (s: State<T>, s': State<T>)
    requires 0 < c.cap && p1 < |c.roles| && k < |c.roles|
    requires c.roles[p1] == Producer && c.roles[k] == Consumer
    ensures Reachable(c, s) && Stores.Discard(s.q, c.cap).0 == Stores.Reset(s.q)
    ensures Leads(StepOf(c), s.(q := Stores.Reset(s.q)), s')
    ensures AllWaiting(s') && s'.q.items == [] && !s'.q.closeWrite
  {
    s := FullAndWaiting(c, p1, Produce(Copies(x, 2 * c.cap + 1)));
    var emptied := s.(q := Stores.Reset(s.q));
    Stay(StepOf(c), emptied);
    ParkAll(c, emptied, emptied, Consumer, Consume(c.cap), |c.roles|);
    s' := emptied.(pcs := Park(c, emptied.pcs, Consumer, Consume(c.cap), |c.roles|));
  }
}
