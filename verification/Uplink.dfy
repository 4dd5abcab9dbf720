/** From the device's side of an in-process pipe to the server's Poll: three channels,
    three readers that run concurrently, one queue. */
module Uplink {
  import opened Common
  import opened Stats
  import opened StatsLaws
  import opened Runs

  const OPUS_CAPACITY := 1024
  const EVENT_CAPACITY := 32

  /** What Poll returns: an audio frame, a state event, or changes of the statistics. */
  datatype Data<A, S> = Audio(frame: A) | State(state: S) | Changes(changes: StatsChanges)

  datatype SendResult = Sent | PipeBufferFull

  /** Sending on the device's side. After Close it reports success and sends nothing. */
  function Send<X>(closed: bool, ch: seq<X>, capacity: nat, x: X): (seq<X>, SendResult) {
    if closed then (ch, Sent)
    else if |ch| < capacity then (ch + [x], Sent)
    else (ch, PipeBufferFull)
  }

  /** One call of a send method as its caller saw it: the item, whether the caller had
      closed this side before, and what the call returned. */
  datatype Attempt<X> = Attempt(item: X, closed: bool, result: SendResult)

  /** A channel, every attempt to send on it, and the item in its reader's hands. */
  datatype Lane<X> = Lane(ch: seq<X>, attempts: seq<Attempt<X>>, inFlight: Option<X>)

  datatype System<A, S> = System(
    closed: bool, audio: Lane<A>, states: Lane<S>, stats: Lane<StatsEvent>,
    server: Option<StatsEvent>, changes: Option<StatsChanges>, handled: seq<StatsEvent>,
    queue: seq<Data<A, S>>, polled: seq<Data<A, S>>)

  function Start<A, S>(): System<A, S> {
    System(false, Lane([], [], None), Lane([], [], None), Lane([], [], None), None, None, [], [], [])
  }

  function Sends<X>(closed: bool, l: Lane<X>, capacity: nat, x: X): Lane<X> {
    var (ch, r) := Send(closed, l.ch, capacity, x);
    l.(ch := ch, attempts := l.attempts + [Attempt(x, closed, r)])
  }

  /** What callers may take for sent: the items of the attempts before closing that were
      not told of a full pipe. */
  function Granted<X>(attempts: seq<Attempt<X>>): seq<X> {
    if attempts == [] then []
    else
      var last := attempts[|attempts| - 1];
      Granted(attempts[..|attempts| - 1]) + (if !last.closed && last.result.Sent? then [last.item] else [])
  }

  lemma GrantedMore<X>(attempts: seq<Attempt<X>>, a: Attempt<X>)
    ensures Granted(attempts + [a]) == Granted(attempts) + (if !a.closed && a.result.Sent? then [a.item] else [])
  {
    assert (attempts + [a])[..|attempts|] == attempts;
  }

  ghost predicate Receives<X>(l: Lane<X>, l': Lane<X>) {
    l.inFlight.None? && l.ch != [] && l' == l.(ch := l.ch[1..], inFlight := Some(l.ch[0]))
  }

  ghost predicate DeviceStep<A(!new), S(!new)>(s: System<A, S>, s': System<A, S>) {
    || (exists a :: s' == s.(audio := Sends(s.closed, s.audio, OPUS_CAPACITY, a)))
    || (exists e :: s' == s.(states := Sends(s.closed, s.states, EVENT_CAPACITY, e)))
    || (exists e :: s' == s.(stats := Sends(s.closed, s.stats, EVENT_CAPACITY, e)))
    || s' == s.(closed := true)
  }

  /** The audio reader: receive, then add to the queue. */
  ghost predicate AudioStep<A(!new), S(!new)>(s: System<A, S>, s': System<A, S>) {
    || (exists l :: Receives(s.audio, l) && s' == s.(audio := l))
    || (s.audio.inFlight.Some?
        && s' == s.(audio := s.audio.(inFlight := None), queue := s.queue + [Audio(s.audio.inFlight.value)]))
  }

  ghost predicate StateStep<A(!new), S(!new)>(s: System<A, S>, s': System<A, S>) {
    || (exists l :: Receives(s.states, l) && s' == s.(states := l))
    || (s.states.inFlight.Some?
        && s' == s.(states := s.states.(inFlight := None), queue := s.queue + [State(s.states.inFlight.value)]))
  }

  /** The stats reader: receive, merge, and add the changes, if any, to the queue. */
  ghost predicate StatsStep<A, S>(s: System<A, S>, s': System<A, S>) {
    || (s.changes.None? && Receives(s.stats, s'.stats) && s' == s.(stats := s'.stats))
    || (s.stats.inFlight.Some? && s' == HandleStats(s, s.stats.inFlight.value))
    || (s.changes.Some?
        && s' == s.(changes := None, queue := s.queue + [Changes(s.changes.value)]))
  }

  function HandleStats<A, S>(s: System<A, S>, e: StatsEvent): System<A, S> {
    s.(stats := s.stats.(inFlight := None), server := Some(Handled(s.server, e)), changes := Reported(s.server, e),
       handled := s.handled + [e])
  }

  ghost predicate Polls<A, S>(s: System<A, S>, s': System<A, S>) {
    s.queue != [] && s' == s.(queue := s.queue[1..], polled := s.polled + [s.queue[0]])
  }

  ghost predicate Step<A(!new), S(!new)>(s: System<A, S>, s': System<A, S>) {
    DeviceStep(s, s') || AudioStep(s, s') || StateStep(s, s') || StatsStep(s, s') || Polls(s, s')
  }

  ghost function StepFn<A(!new), S(!new)>(): (System<A, S>, System<A, S>) -> bool { (s, s') => Step(s, s') }

  ghost predicate Reachable<A(!new), S(!new)>(s: System<A, S>) { Leads(StepFn(), Start(), s) }

  // ---- The three streams inside the merged one ----

  function Frames<A, S>(q: seq<Data<A, S>>): seq<A> {
    if q == [] then []
    else Frames(q[..|q| - 1]) + (if q[|q| - 1].Audio? then [q[|q| - 1].frame] else [])
  }

  function States<A, S>(q: seq<Data<A, S>>): seq<S> {
    if q == [] then []
    else States(q[..|q| - 1]) + (if q[|q| - 1].State? then [q[|q| - 1].state] else [])
  }

  function AllChanges<A, S>(q: seq<Data<A, S>>): seq<StatsChanges> {
    if q == [] then []
    else AllChanges(q[..|q| - 1]) + (if q[|q| - 1].Changes? then [q[|q| - 1].changes] else [])
  }

  lemma OneMore<A, S>(q: seq<Data<A, S>>, d: Data<A, S>)
    ensures Frames(q + [d]) == Frames(q) + (if d.Audio? then [d.frame] else [])
    ensures States(q + [d]) == States(q) + (if d.State? then [d.state] else [])
    ensures AllChanges(q + [d]) == AllChanges(q) + (if d.Changes? then [d.changes] else [])
  {
    assert (q + [d])[..|q|] == q;
  }

  function Holding<X>(x: Option<X>): seq<X> { if x.Some? then [x.value] else [] }

  /** Everything the merged stream has got so far. */
  function Merged<A, S>(s: System<A, S>): seq<Data<A, S>> { s.polled + s.queue }

  /** What got through a lane, what its reader holds and what is in its channel is, in
      order, what was granted: nothing told sent is missing and nothing else turns up. */
  ghost predicate InOrder<X>(through: seq<X>, l: Lane<X>) {
    through + Holding(l.inFlight) + l.ch == Granted(l.attempts)
  }

  ghost predicate Ordered<A, S>(s: System<A, S>) {
    InOrder(Frames(Merged(s)), s.audio) && InOrder(States(Merged(s)), s.states)
  }

  /** The server's record and the changes under way are those of the events handled. */
  ghost predicate Recorded<A, S>(s: System<A, S>) {
    && InOrder(s.handled, s.stats)
    && (s.stats.inFlight.Some? ==> s.changes.None?)
    && RecordOf(s.handled, s.server, AllChanges(Merged(s)) + Holding(s.changes))
  }

  ghost predicate RecordOf(handled: seq<StatsEvent>, server: Option<StatsEvent>, changes: seq<StatsChanges>) {
    if handled == [] then server == None && changes == []
    else server == Some(Fold(handled[0], handled[1..])) && changes == Emitted(handled[0], handled[1..])
  }

  lemma {:induction false} FoldAppend(e: StatsEvent, es: seq<StatsEvent>, o: StatsEvent)
    ensures Fold(e, es + [o]) == Stats.Merged(Fold(e, es), o)
    ensures Emitted(e, es + [o]) == Emitted(e, es) + Holding(Diff(Fold(e, es), o))
    decreases |es|
  {
    if es == [] {
      assert [o][1..] == [];
      assert Fold(e, [o]) == Fold(Stats.Merged(e, o), []);
      assert Emitted(e, [o]) == Holding(Diff(e, o)) + Emitted(Stats.Merged(e, o), []);
    } else {
      assert (es + [o])[1..] == es[1..] + [o];
      FoldAppend(Stats.Merged(e, es[0]), es[1..], o);
    }
  }

  lemma SendKeeps<X>(through: seq<X>, closed: bool, l: Lane<X>, capacity: nat, x: X)
    requires InOrder(through, l)
    ensures InOrder(through, Sends(closed, l, capacity, x))
  {
    GrantedMore(l.attempts, Attempt(x, closed, Send(closed, l.ch, capacity, x).1));
  }

  lemma ReceiveKeeps<X>(through: seq<X>, l: Lane<X>, l': Lane<X>)
    requires InOrder(through, l) && Receives(l, l')
    ensures InOrder(through, l')
  {
    assert l.ch == [l.ch[0]] + l.ch[1..];
    assert through + [] + l.ch == through + [l.ch[0]] + l.ch[1..];
  }

  lemma PushKeeps<X>(through: seq<X>, l: Lane<X>)
    requires InOrder(through, l) && l.inFlight.Some?
    ensures InOrder(through + [l.inFlight.value], l.(inFlight := None))
  {
  }

  lemma DeviceKeeps<A(!new), S(!new)>(s: System<A, S>, s': System<A, S>)
    requires Ordered(s) && Recorded(s) && DeviceStep(s, s')
    ensures Ordered(s') && Recorded(s')
  {
    assert Merged(s') == Merged(s);
    if a :| s' == s.(audio := Sends(s.closed, s.audio, OPUS_CAPACITY, a)) {
      SendKeeps(Frames(Merged(s)), s.closed, s.audio, OPUS_CAPACITY, a);
    } else if e :| s' == s.(states := Sends(s.closed, s.states, EVENT_CAPACITY, e)) {
      SendKeeps(States(Merged(s)), s.closed, s.states, EVENT_CAPACITY, e);
    } else if e :| s' == s.(stats := Sends(s.closed, s.stats, EVENT_CAPACITY, e)) {
      SendKeeps(s.handled, s.closed, s.stats, EVENT_CAPACITY, e);
    }
  }

  /** Queueing an item moves it from a reader's hands into the merged stream. */
  lemma Queued<A, S>(s: System<A, S>, s': System<A, S>, d: Data<A, S>)
    requires s'.polled == s.polled && s'.queue == s.queue + [d]
    ensures Frames(Merged(s')) == Frames(Merged(s)) + (if d.Audio? then [d.frame] else [])
    ensures States(Merged(s')) == States(Merged(s)) + (if d.State? then [d.state] else [])
    ensures AllChanges(Merged(s')) == AllChanges(Merged(s)) + (if d.Changes? then [d.changes] else [])
  {
    assert Merged(s') == Merged(s) + [d];
    OneMore(Merged(s), d);
  }

  lemma AudioKeeps<A(!new), S(!new)>(s: System<A, S>, s': System<A, S>)
    requires Ordered(s) && Recorded(s) && AudioStep(s, s')
    ensures Ordered(s') && Recorded(s')
  {
    if l :| Receives(s.audio, l) && s' == s.(audio := l) {
      assert Merged(s') == Merged(s);
      ReceiveKeeps(Frames(Merged(s)), s.audio, l);
    } else {
      Queued(s, s', Audio(s.audio.inFlight.value));
      SameStream(Merged(s), Merged(s'));
      PushKeeps(Frames(Merged(s)), s.audio);
    }
  }

  lemma StateKeeps<A(!new), S(!new)>(s: System<A, S>, s': System<A, S>)
    requires Ordered(s) && Recorded(s) && StateStep(s, s')
    ensures Ordered(s') && Recorded(s')
  {
    if l :| Receives(s.states, l) && s' == s.(states := l) {
      assert Merged(s') == Merged(s);
      ReceiveKeeps(States(Merged(s)), s.states, l);
    } else {
      Queued(s, s', State(s.states.inFlight.value));
      SameStream(Merged(s), Merged(s'));
      PushKeeps(States(Merged(s)), s.states);
    }
  }

  /** An item of one stream leaves the other two as they are. */
  lemma SameStream<A, S>(q: seq<Data<A, S>>, q': seq<Data<A, S>>)
    ensures Frames(q') == Frames(q) + [] ==> Frames(q') == Frames(q)
    ensures States(q') == States(q) + [] ==> States(q') == States(q)
    ensures AllChanges(q') == AllChanges(q) + [] ==> AllChanges(q') == AllChanges(q)
  {
  }

  lemma HandleKeeps<A, S>(s: System<A, S>, e: StatsEvent)
    requires Ordered(s) && Recorded(s) && s.stats.inFlight == Some(e)
    ensures Ordered(HandleStats(s, e)) && Recorded(HandleStats(s, e))
  {
    var s' := HandleStats(s, e);
    assert Merged(s') == Merged(s);
    PushKeeps(s.handled, s.stats);
    if s.handled == [] {
      assert s'.handled == [e] && s'.handled[1..] == [];
    } else {
      assert s'.handled[1..] == s.handled[1..] + [e];
      FoldAppend(s.handled[0], s.handled[1..], e);
      assert AllChanges(Merged(s)) + Holding(None) == AllChanges(Merged(s));
    }
  }

  lemma StatsKeeps<A(!new), S(!new)>(s: System<A, S>, s': System<A, S>)
    requires Ordered(s) && Recorded(s) && StatsStep(s, s')
    ensures Ordered(s') && Recorded(s')
  {
    if s.stats.inFlight.Some? && s' == HandleStats(s, s.stats.inFlight.value) {
      HandleKeeps(s, s.stats.inFlight.value);
    } else if |s'.queue| > |s.queue| {
      ChangesKeep(s, s');
    } else {
      assert Merged(s') == Merged(s);
      ReceiveKeeps(s.handled, s.stats, s'.stats);
    }
  }

  lemma ChangesKeep<A, S>(s: System<A, S>, s': System<A, S>)
    requires Ordered(s) && Recorded(s) && s.changes.Some?
    requires s' == s.(changes := None, queue := s.queue + [Changes(s.changes.value)])
    ensures Ordered(s') && Recorded(s')
  {
    var d: Data<A, S> := Changes(s.changes.value);
    Queued(s, s', d);
    SameStream(Merged(s), Merged(s'));
    assert AllChanges(Merged(s')) + Holding(s'.changes) == AllChanges(Merged(s)) + Holding(s.changes);
  }

  lemma StepKeeps<A(!new), S(!new)>(s: System<A, S>, s': System<A, S>)
    requires Ordered(s) && Recorded(s) && Step(s, s')
    ensures Ordered(s') && Recorded(s')
  {
    if DeviceStep(s, s') {
      DeviceKeeps(s, s');
    } else if AudioStep(s, s') {
      AudioKeeps(s, s');
    } else if StateStep(s, s') {
      StateKeeps(s, s');
    } else if StatsStep(s, s') {
      StatsKeeps(s, s');
    } else {
      assert Merged(s') == Merged(s);
    }
  }

  /** However the three readers interleave: the audio and state streams inside what was
      polled and queued, with what is in flight and in the pipe, are what the senders
      were granted, in order; and whoever has the first statistics event and the changes
      delivered or under way can rebuild the server's record. */
  lemma StreamsKeepOrder<A(!new), S(!new)>(s: System<A, S>)
    requires Reachable(s)
    ensures Frames(s.polled + s.queue) + Holding(s.audio.inFlight) + s.audio.ch == Granted(s.audio.attempts)
    ensures States(s.polled + s.queue) + Holding(s.states.inFlight) + s.states.ch == Granted(s.states.attempts)
    ensures s.server.Some? <==> s.handled != []
    ensures s.handled + Holding(s.stats.inFlight) + s.stats.ch == Granted(s.stats.attempts)
    ensures s.server.Some? ==>
      var changes := AllChanges(s.polled + s.queue) + Holding(s.changes);
      s.server.value == Replay(s.handled[0], changes).(time := s.server.value.time)
  {
    var inv := (t: System<A, S>) => Ordered(t) && Recorded(t);
    forall a, b | inv(a) && StepFn<A, S>()(a, b) ensures inv(b) {
      StepKeeps(a, b);
    }
    Keeps(StepFn(), inv, Start(), s);
    if s.handled != [] {
      DiffsRebuild(s.handled[0], s.handled[1..]);
    }
  }

  // ---- What a caller can conclude from the result of a send ----

  /** On a lane: the channel never holds more than its capacity, and closing is final. */
  ghost predicate Bounded<X>(closed: bool, l: Lane<X>, capacity: nat) {
    && |l.ch| <= capacity
    && (forall i :: 0 <= i < |l.attempts| && l.attempts[i].closed ==> closed && l.attempts[i].result.Sent?)
    && forall i, j :: 0 <= i < j < |l.attempts| && l.attempts[i].closed ==> l.attempts[j].closed
  }

  ghost predicate AllBounded<A, S>(s: System<A, S>) {
    && Bounded(s.closed, s.audio, OPUS_CAPACITY)
    && Bounded(s.closed, s.states, EVENT_CAPACITY)
    && Bounded(s.closed, s.stats, EVENT_CAPACITY)
  }

  lemma SendBounded<X>(closed: bool, l: Lane<X>, capacity: nat, x: X)
    requires Bounded(closed, l, capacity)
    ensures Bounded(closed, Sends(closed, l, capacity, x), capacity)
  {
  }

  lemma DeviceBounded<A(!new), S(!new)>(s: System<A, S>, s': System<A, S>)
    requires AllBounded(s) && DeviceStep(s, s')
    ensures AllBounded(s')
  {
    if a :| s' == s.(audio := Sends(s.closed, s.audio, OPUS_CAPACITY, a)) {
      SendBounded(s.closed, s.audio, OPUS_CAPACITY, a);
    } else if e :| s' == s.(states := Sends(s.closed, s.states, EVENT_CAPACITY, e)) {
      SendBounded(s.closed, s.states, EVENT_CAPACITY, e);
    } else if e :| s' == s.(stats := Sends(s.closed, s.stats, EVENT_CAPACITY, e)) {
      SendBounded(s.closed, s.stats, EVENT_CAPACITY, e);
    }
  }

  /** The readers and Poll only take items out of channels. */
  ghost predicate OnlyTakes<X>(l: Lane<X>, l': Lane<X>) { l'.attempts == l.attempts && |l'.ch| <= |l.ch| }

  lemma TakesBounded<A(!new), S(!new)>(s: System<A, S>, s': System<A, S>)
    requires AllBounded(s) && s'.closed == s.closed
    requires OnlyTakes(s.audio, s'.audio) && OnlyTakes(s.states, s'.states) && OnlyTakes(s.stats, s'.stats)
    ensures AllBounded(s')
  {
  }

  lemma StepBounded<A(!new), S(!new)>(s: System<A, S>, s': System<A, S>)
    requires AllBounded(s) && Step(s, s')
    ensures AllBounded(s')
  {
    if DeviceStep(s, s') {
      DeviceBounded(s, s');
    } else {
      TakesBounded(s, s');
    }
  }

  lemma ReachableBounded<A(!new), S(!new)>(s: System<A, S>)
    requires Reachable(s)
    ensures AllBounded(s)
  {
    var inv := (t: System<A, S>) => AllBounded(t);
    forall a, b | inv(a) && StepFn<A, S>()(a, b) ensures inv(b) {
      StepBounded(a, b);
    }
    Keeps(StepFn(), inv, Start(), s);
  }

  /** The fate of the next item sent on a lane that took `through` out so far: it gets
      into the stream iff this side is open and fewer than `capacity` granted items are
      still in the pipe; the caller is told of a loss iff it is open and that many are. */
  ghost predicate FateOf<X>(closed: bool, through: seq<X>, l: Lane<X>, capacity: nat, x: X) {
    var pending := |Granted(l.attempts)| - |through| - |Holding(l.inFlight)|;
    var after := Sends(closed, l, capacity, x);
    && after.attempts[..|after.attempts| - 1] == l.attempts
    && (Granted(after.attempts) == Granted(l.attempts) + [x] <==> !closed && pending < capacity)
    && (after.attempts[|after.attempts| - 1].result == PipeBufferFull <==> !closed && pending == capacity)
  }

  lemma Fate<X>(closed: bool, through: seq<X>, l: Lane<X>, capacity: nat, x: X)
    requires InOrder(through, l) && Bounded(closed, l, capacity)
    ensures FateOf(closed, through, l, capacity, x)
  {
    GrantedMore(l.attempts, Attempt(x, closed, Send(closed, l.ch, capacity, x).1));
    assert |Granted(l.attempts)| == |through| + |Holding(l.inFlight)| + |l.ch|;
  }

  /** Over every run and on every lane: an item is dropped only when its sender was told
      the pipe is full, which happens exactly when as many granted items as the channel
      holds have not been received, or after closing, when the sender is told nothing;
      and once one attempt came after closing, so do all later ones. */
  lemma LostSends<A(!new), S(!new)>(s: System<A, S>, a: A, st: S, e: StatsEvent)
    requires Reachable(s)
    ensures FateOf(s.closed, Frames(s.polled + s.queue), s.audio, OPUS_CAPACITY, a)
    ensures FateOf(s.closed, States(s.polled + s.queue), s.states, EVENT_CAPACITY, st)
    ensures FateOf(s.closed, s.handled, s.stats, EVENT_CAPACITY, e)
    ensures AllBounded(s)
  {
    StreamsKeepOrder(s);
    ReachableBounded(s);
    Fate(s.closed, Frames(s.polled + s.queue), s.audio, OPUS_CAPACITY, a);
    Fate(s.closed, States(s.polled + s.queue), s.states, EVENT_CAPACITY, st);
    Fate(s.closed, s.handled, s.stats, EVENT_CAPACITY, e);
  }
}
