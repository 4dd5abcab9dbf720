/** Laws of the statistics merge: diffs are complete and replayable, merging is
    monotone and idempotent, and over any run the diffs rebuild the server's copy. */
module StatsLaws {
  import opened Common
  import opened Stats

  function Over<A>(cur: Option<A>, change: Option<A>): Option<A> {
    if change.Some? then change else cur
  }

  /** e with the fields that d reports. */
  function Override(e: StatsEvent, d: StatsChanges): StatsEvent {
    StatsEvent(d.time, d.lastResetAt.GetOr(e.lastResetAt),
      Over(e.battery, d.battery), Over(e.systemVersion, d.systemVersion), Over(e.volume, d.volume),
      Over(e.brightness, d.brightness), Over(e.lightMode, d.lightMode), Over(e.cellular, d.cellular),
      Over(e.wifiNetwork, d.wifiNetwork), Over(e.wifiStore, d.wifiStore), Over(e.readNFCTag, d.readNFCTag),
      Over(e.pairStatus, d.pairStatus), Over(e.shaking, d.shaking))
  }

  /** A diff says everything: the new copy is the old one overridden by exactly the
      reported fields, and without a diff only the time may have moved. */
  lemma DiffComplete(e: StatsEvent, o: StatsEvent)
    ensures Diff(e, o).Some? ==> Merged(e, o) == Override(e, Diff(e, o).value)
    ensures Diff(e, o).None? ==> Merged(e, o) == e.(time := if o.time < e.time then e.time else o.time)
  {
  }

  /** Whether a stamped field is reported, whole, exactly when the event's entry is
      the one the server now holds. */
  ghost predicate ReportsEntry<V>(d: Option<Stamped<V>>, inc: Option<Stamped<V>>, now: Option<Stamped<V>>) {
    d == if inc.Some? && now == inc then inc else None
  }

  /** A diff says nothing else: replaced fields are reported only when they changed,
      stamped fields only when the event's entry was taken. */
  lemma DiffMinimal(e: StatsEvent, o: StatsEvent)
    requires Diff(e, o).Some?
    ensures var d := Diff(e, o).value;
      && d.time == o.time
      && (d.lastResetAt.Some? <==> Merged(e, o).lastResetAt != e.lastResetAt)
      && (d.battery.Some? <==> Merged(e, o).battery != e.battery)
      && (d.cellular.Some? <==> Merged(e, o).cellular != e.cellular)
      && (d.wifiNetwork.Some? <==> Merged(e, o).wifiNetwork != e.wifiNetwork)
      && (d.readNFCTag.Some? <==> !SameTags(Merged(e, o).readNFCTag, e.readNFCTag))
      && (d.shaking.Some? <==> Merged(e, o).shaking != e.shaking)
      && ReportsEntry(d.systemVersion, o.systemVersion, Merged(e, o).systemVersion)
      && ReportsEntry(d.volume, o.volume, Merged(e, o).volume)
      && ReportsEntry(d.brightness, o.brightness, Merged(e, o).brightness)
      && ReportsEntry(d.lightMode, o.lightMode, Merged(e, o).lightMode)
      && ReportsEntry(d.wifiStore, o.wifiStore, Merged(e, o).wifiStore)
      && ReportsEntry(d.pairStatus, o.pairStatus, Merged(e, o).pairStatus)
  {
  }

  /** m is what a stamped field is after a merge: the entry with the later stamp, the
      incoming one if they are equal. */
  ghost predicate LaterWins<V>(cur: Option<Stamped<V>>, inc: Option<Stamped<V>>, m: Option<Stamped<V>>) {
    && (inc.None? ==> m == cur)
    && (cur.None? ==> m == inc)
    && (cur.Some? && inc.Some? ==> (m == inc <==> cur.value.updateAt <= inc.value.updateAt || cur == inc))
    && (m == cur || m == inc)
  }

  /** m is what any other field is after a merge: the incoming value, if there is one. */
  ghost predicate IncomingWins<A>(cur: Option<A>, inc: Option<A>, m: Option<A>) {
    m == if inc.Some? then inc else cur
  }

  /** What a merge decides, field by field: a stale event changes and reports nothing; any
      other moves the time to its own, the reset time to the later one, stamped fields to
      the later stamp and other fields to the incoming value, tags only when the set of
      their identifiers differs. */
  lemma MergeDecides(e: StatsEvent, o: StatsEvent)
    ensures o.time < e.time ==> Merged(e, o) == e && Diff(e, o) == None
    ensures var m := Merged(e, o);
      o.time >= e.time ==>
        && m.time == o.time
        && m.lastResetAt >= e.lastResetAt && m.lastResetAt >= o.lastResetAt
        && (m.lastResetAt == e.lastResetAt || m.lastResetAt == o.lastResetAt)
        && LaterWins(e.systemVersion, o.systemVersion, m.systemVersion) && LaterWins(e.volume, o.volume, m.volume)
        && LaterWins(e.brightness, o.brightness, m.brightness) && LaterWins(e.lightMode, o.lightMode, m.lightMode)
        && LaterWins(e.wifiStore, o.wifiStore, m.wifiStore) && LaterWins(e.pairStatus, o.pairStatus, m.pairStatus)
        && IncomingWins(e.battery, o.battery, m.battery) && IncomingWins(e.cellular, o.cellular, m.cellular)
        && IncomingWins(e.wifiNetwork, o.wifiNetwork, m.wifiNetwork) && IncomingWins(e.shaking, o.shaking, m.shaking)
        && (if o.readNFCTag.Some? && e.readNFCTag.Some? && Uids(o.readNFCTag.value) == Uids(e.readNFCTag.value)
            then m.readNFCTag == e.readNFCTag else IncomingWins(e.readNFCTag, o.readNFCTag, m.readNFCTag))
  {
  }

  /** The first event a server port handles is taken as it is and reported by no diff; any
      other is merged. */
  lemma FirstEventTaken(e: StatsEvent, o: StatsEvent)
    ensures Handled(None, o) == o && Reported(None, o) == None
    ensures Handled(Some(e), o) == Merged(e, o) && Reported(Some(e), o) == Diff(e, o)
  {
  }

  // ---- Runs of the server port ----

  function Fold(e: StatsEvent, es: seq<StatsEvent>): StatsEvent
    decreases |es|
  {
    if es == [] then e else Fold(Merged(e, es[0]), es[1..])
  }

  /** The diffs reported while folding es. */
  function Emitted(e: StatsEvent, es: seq<StatsEvent>): seq<StatsChanges>
    decreases |es|
  {
    if es == [] then []
    else (if Diff(e, es[0]).Some? then [Diff(e, es[0]).value] else []) + Emitted(Merged(e, es[0]), es[1..])
  }

  function Replay(e: StatsEvent, ds: seq<StatsChanges>): StatsEvent
    decreases |ds|
  {
    if ds == [] then e else Replay(Override(e, ds[0]), ds[1..])
  }

  lemma {:induction false} ReplayIgnoresTime(e: StatsEvent, t: Milli, u: Milli, ds: seq<StatsChanges>)
    ensures Replay(e.(time := t), ds).(time := u) == Replay(e, ds).(time := u)
    decreases |ds|
  {
    if ds != [] {
      assert Override(e.(time := t), ds[0]) == Override(e, ds[0]);
    }
  }

  /** Whoever has the first snapshot and every diff has the server's stats, but for
      the time of events that changed nothing else. */
  lemma {:induction false} DiffsRebuild(e: StatsEvent, es: seq<StatsEvent>)
    ensures Fold(e, es) == Replay(e, Emitted(e, es)).(time := Fold(e, es).time)
    decreases |es|
  {
    if es != [] {
      var m, rest := Merged(e, es[0]), Emitted(Merged(e, es[0]), es[1..]);
      DiffsRebuild(m, es[1..]);
      DiffComplete(e, es[0]);
      if Diff(e, es[0]).Some? {
        assert Emitted(e, es) == [Diff(e, es[0]).value] + rest;
        assert Emitted(e, es)[1..] == rest;
      } else {
        assert Emitted(e, es) == rest;
        ReplayIgnoresTime(e, m.time, Fold(e, es).time, rest);
      }
    }
  }

  ghost predicate StampLe<V>(a: Option<Stamped<V>>, b: Option<Stamped<V>>) {
    a.Some? ==> b.Some? && a.value.updateAt <= b.value.updateAt
  }

  /** No stamp of b is older than in a, and nothing known in a is unknown in b. */
  ghost predicate NotOlder(a: StatsEvent, b: StatsEvent) {
    && a.time <= b.time && a.lastResetAt <= b.lastResetAt
    && StampLe(a.systemVersion, b.systemVersion) && StampLe(a.volume, b.volume)
    && StampLe(a.brightness, b.brightness) && StampLe(a.lightMode, b.lightMode)
    && StampLe(a.wifiStore, b.wifiStore) && StampLe(a.pairStatus, b.pairStatus)
    && (a.battery.Some? ==> b.battery.Some?) && (a.cellular.Some? ==> b.cellular.Some?)
    && (a.wifiNetwork.Some? ==> b.wifiNetwork.Some?) && (a.readNFCTag.Some? ==> b.readNFCTag.Some?)
    && (a.shaking.Some? ==> b.shaking.Some?)
  }

  /** Whatever events arrive in whatever order, the server's copy never goes back. */
  lemma {:induction false} FoldMonotone(e: StatsEvent, es: seq<StatsEvent>)
    ensures NotOlder(e, Fold(e, es))
    decreases |es|
  {
    if es != [] {
      FoldMonotone(Merged(e, es[0]), es[1..]);
    }
  }

  /** Delivering an event twice is delivering it once; the second time reports no
      replaced field. */
  lemma MergeIdempotent(e: StatsEvent, o: StatsEvent)
    ensures Merged(Merged(e, o), o) == Merged(e, o)
    ensures Diff(Merged(e, o), o).Some? ==>
      var d := Diff(Merged(e, o), o).value;
      d.lastResetAt == None && d.battery == None && d.cellular == None && d.wifiNetwork == None
      && d.readNFCTag == None && d.shaking == None
  {
  }

  /** `StatsChanges.StatsEvent`: the diff as an event. It has no place for the cellular
      network, and an absent reset time becomes the zero time. */
  function AsEvent(d: StatsChanges): StatsEvent {
    StatsEvent(d.time, d.lastResetAt.GetOr(ZERO_TIME), d.battery, d.systemVersion, d.volume, d.brightness,
      d.lightMode, None, d.wifiNetwork, d.wifiStore, d.readNFCTag, d.pairStatus, d.shaking)
  }

  /** Replaying a diff as an event on the old copy gives the new copy exactly when the
      diff has no cellular part and does not lean on a reset time before the zero time;
      otherwise those two fields, and no others, keep their old or zero value. */
  lemma ReplayDiff(e: StatsEvent, o: StatsEvent)
    requires Diff(e, o).Some?
    ensures var d := Diff(e, o).value;
      && (Merged(e, AsEvent(d)) == Merged(e, o) <==> d.cellular.None? && (d.lastResetAt.None? ==> ZERO_TIME <= e.lastResetAt))
      && Merged(e, AsEvent(d)).(lastResetAt := Merged(e, o).lastResetAt)
         == Merged(e, o).(cellular := e.cellular)
  {
  }
}
