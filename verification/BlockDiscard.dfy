/** What `Discard` and `Reset` do to the wake-up guarantee of one producer and one
    consumer: they make room without a signal, which matters exactly when a producer
    waits for that room. */
module BlockDiscard {
  import opened Common
  import opened Stores
  import opened BlockBuffer
  import opened Runs
  import opened BlockProtocol
  import opened BlockDeadlock

  ghost predicate ProducerWaits<T>(c: Config, s: State<T>) {
    exists i :: 0 <= i < |s.pcs| && i < |c.roles| && c.roles[i].Producer? && s.pcs[i].Waiting?
  }

  /** Less than `WakeSafe`, and still enough: a waiting producer need not face a full
      buffer, as long as there is something for the consumer to take. */
  ghost predicate Live<T>(c: Config, s: State<T>) {
    && Sound(c, s)
    && forall i :: 0 <= i < |s.pcs| && s.pcs[i].Waiting? ==>
         !s.q.closeWrite && (s.pcs[i].op.Consume? <==> s.q.items == [])
  }

  lemma SectionLive<T>(c: Config, s: State<T>, i: nat, op: Op<T>, w: nat, s': State<T>)
    requires OnePair(c) && 0 < c.cap && Live(c, s) && Acts(c, s, i, op, w, s')
    ensures Live(c, s')
  {
    var j := 1 - i;
    match op
    case Consume(k) =>
      assert s.pcs[j].Waiting? ==> Fits(c.roles[j], s.pcs[j].op);
    case Produce(p) =>
      assert s.pcs[j].Waiting? ==> Fits(c.roles[j], s.pcs[j].op);
  }

  lemma StepLive<T(!new)>(c: Config, s: State<T>, s': State<T>)
    requires OnePair(c) && 0 < c.cap && Live(c, s) && Step(c, s, s')
    ensures Live(c, s')
  {
    if i: nat, op, w :| Acts(c, s, i, op, w, s') {
      SectionLive(c, s, i, op, w, s');
    }
  }

  /** From a live state on nobody gets stuck. */
  lemma NeverStuck<T(!new)>(c: Config, s: State<T>, s': State<T>)
    requires OnePair(c) && 0 < c.cap && Live(c, s) && Leads(StepOf(c), s, s')
    ensures Live(c, s') && !AllWaiting(s')
  {
    var inv := (t: State<T>) => Live(c, t);
    forall a, b | inv(a) && StepOf<T>(c)(a, b) ensures inv(b) {
      StepLive(c, a, b);
    }
    Keeps(StepOf(c), inv, s, s');
    assert s'.pcs[0].Waiting? ==> Fits(c.roles[0], s'.pcs[0].op);
    assert s'.pcs[1].Waiting? ==> Fits(c.roles[1], s'.pcs[1].op);
  }

  /** s after the d oldest elements vanished from its buffer without a signal. */
  function Without<T>(s: State<T>, d: nat): State<T>
    requires d <= |s.q.items|
  {
    s.(q := s.q.(items := s.q.items[d..]))
  }

  ghost predicate CanStick<T(!new)>(c: Config, s: State<T>) {
    exists s' :: Leads(StepOf(c), s, s') && AllWaiting(s')
  }

  /** The consumer finds the buffer empty, and waits next to the producer. */
  lemma Sticks<T(!new)>(c: Config, s: State<T>, i: nat)
    requires OnePair(c) && 0 < c.cap && Sound(c, s) && s.q.items == [] && !s.q.closeWrite
    requires i < 2 && c.roles[i].Producer? && s.pcs[i].Waiting? && !s.pcs[1 - i].Waiting?
    ensures CanStick(c, s)
  {
    var j := 1 - i;
    var op := if s.pcs[j].Woken? then s.pcs[j].op else Consume(1);
    var s' := Section(c, s, j, op, i);
    BlocksWaits(c, s, j, op, i);
    Stay(StepOf(c), s);
    Act(c, s, s, j, op, i, s');
  }

  lemma StuckIff<T(!new)>(c: Config, s: State<T>, d: nat)
    requires OnePair(c) && 0 < c.cap && Live(c, s) && d <= |s.q.items|
    ensures CanStick(c, Without(s, d)) <==> ProducerWaits(c, s) && d == |s.q.items|
    ensures !(ProducerWaits(c, s) && d == |s.q.items|) ==> Live(c, Without(s, d))
  {
    var s1 := Without(s, d);
    if i: nat :| i < |s.pcs| && c.roles[i].Producer? && s.pcs[i].Waiting? && d == |s.q.items| {
      assert Fits(c.roles[i], s.pcs[i].op);
      assert s.pcs[1 - i].Waiting? ==> Fits(c.roles[1 - i], s.pcs[1 - i].op);
      Sticks(c, s1, i);
    } else {
      assert forall i :: 0 <= i < |s.pcs| && s.pcs[i].Waiting? ==> Fits(c.roles[i], s.pcs[i].op);
      forall s' | Leads(StepOf(c), s1, s') ensures !AllWaiting(s') {
        NeverStuck(c, s1, s');
      }
    }
  }

  // ---- Runs with discards ----

  /** Discarding n elements is harmless unless it empties the buffer under a producer
      that waits for room. */
  ghost predicate Harmless<T>(c: Config, s: State<T>, n: nat) {
    ProducerWaits(c, s) ==> n < |s.q.items|
  }

  /** Like `Step`, with discards of the harmless kind and resets while no producer waits. */
  ghost predicate StepOrDrop<T(!new)>(c: Config, s: State<T>, s': State<T>) {
    || Step(c, s, s')
    || (exists n: nat :: Harmless(c, s, n) && s' == s.(q := Stores.Discard(s.q, n).0))
    || (!ProducerWaits(c, s) && s' == s.(q := Stores.Reset(s.q)))
  }

  ghost function StepOrDropOf<T(!new)>(c: Config): (State<T>, State<T>) -> bool {
    (s, s') => StepOrDrop(c, s, s')
  }

  /** A refused discard drops nothing, any other at most what is there. */
  lemma DiscardIsWithout<T>(s: State<T>, n: nat)
    ensures var d := if s.q.closeErr.Some? then 0 else Min(n, |s.q.items|);
      s.(q := Stores.Discard(s.q, n).0) == Without(s, d)
    ensures s.(q := Stores.Reset(s.q)) == Without(s, |s.q.items|)
  {
    assert s.q.items[0..] == s.q.items && s.q.items[|s.q.items|..] == [];
  }

  lemma StepOrDropLive<T(!new)>(c: Config, s: State<T>, s': State<T>)
    requires OnePair(c) && 0 < c.cap && Live(c, s) && StepOrDrop(c, s, s')
    ensures Live(c, s')
  {
    if Step(c, s, s') {
      StepLive(c, s, s');
    } else if n: nat :| Harmless(c, s, n) && s' == s.(q := Stores.Discard(s.q, n).0) {
      DiscardIsWithout(s, n);
      StuckIff(c, s, if s.q.closeErr.Some? then 0 else Min(n, |s.q.items|));
    } else {
      DiscardIsWithout(s, 0);
      StuckIff(c, s, |s.q.items|);
    }
  }

  /** Exactly when dropping elements is harmless, at any point of any run of one producer
      and one consumer, harmless drops before it included: afterwards both can end up
      waiting for each other iff the drop emptied the buffer under a waiting producer. */
  lemma DropHarmlessIff<T(!new)>(c: Config, s: State<T>, n: nat)
    requires OnePair(c) && 0 < c.cap && Leads(StepOrDropOf(c), Start(c), s)
    ensures !AllWaiting(s)
    ensures CanStick(c, s.(q := Stores.Discard(s.q, n).0)) <==> !Harmless(c, s, n)
    ensures CanStick(c, s.(q := Stores.Reset(s.q))) <==> ProducerWaits(c, s)
  {
    var inv := (t: State<T>) => Live(c, t);
    forall a, b | inv(a) && StepOrDropOf<T>(c)(a, b) ensures inv(b) {
      StepOrDropLive(c, a, b);
    }
    Keeps(StepOrDropOf(c), inv, Start(c), s);
    Stay(StepOf(c), s);
    NeverStuck(c, s, s);
    DiscardIsWithout(s, n);
    StuckIff(c, s, if s.q.closeErr.Some? then 0 else Min(n, |s.q.items|));
    StuckIff(c, s, |s.q.items|);
  }

  /** And exactly when a drop leaves the stronger picture of `NoLostWakeUp` intact: it
      dropped nothing, or no producer waits. */
  lemma DropKeepsWakeSafeIff<T(!new)>(c: Config, s: State<T>, n: nat)
    requires OnePair(c) && 0 < c.cap && Reachable(c, s)
    ensures WakeSafe(c, s.(q := Stores.Discard(s.q, n).0)) <==> n == 0 || !ProducerWaits(c, s)
    ensures WakeSafe(c, s.(q := Stores.Reset(s.q))) <==> !ProducerWaits(c, s)
  {
    NoLostWakeUp(c, s);
    ReachableConserved(c, s);
    DiscardIsWithout(s, n);
    assert forall i :: 0 <= i < |s.pcs| && s.pcs[i].Waiting? ==> Fits(c.roles[i], s.pcs[i].op);
    if i :| 0 <= i < |s.pcs| && c.roles[i].Producer? && s.pcs[i].Waiting? {
      assert s.pcs[i].op.Produce?;
    }
  }
}
