/** The statistics protocol end to end: a device, the lossless FIFO queue of its
    uploads, and the server that folds them, under a clock that never runs back. */
module Replication {
  import opened Common
  import opened Stats
  import opened ClientPort
  import opened Runs

  datatype System = System(client: Client, server: Option<StatsEvent>, clock: Milli)

  ghost predicate Calls(s: System, op: Op, now: Milli, sentAt: Milli, s': System) {
    && s.clock <= now <= sentAt
    && s' == s.(client := Apply(s.client, op, now, sentAt), clock := sentAt)
  }

  ghost predicate Delivers(s: System, s': System) {
    && s.client.uplink != []
    && s' == s.(client := s.client.(uplink := s.client.uplink[1..]),
                server := Some(Handled(s.server, s.client.uplink[0])))
  }

  ghost predicate Step(s: System, s': System) {
    (exists op, now, sentAt :: Calls(s, op, now, sentAt, s')) || Delivers(s, s')
  }

  ghost function StepFn(): (System, System) -> bool { (s, s') => Step(s, s') }

  ghost predicate Reachable(s: System) {
    exists clock :: ZERO_TIME <= clock && Leads(StepFn(), System(NEW_CLIENT, None, clock), s)
  }

  /** The server's stats once everything queued has been handled. */
  function Final(server: Option<StatsEvent>, queue: seq<StatsEvent>): Option<StatsEvent>
    decreases |queue|
  {
    if queue == [] then server else Final(Some(Handled(server, queue[0])), queue[1..])
  }

  lemma {:induction false} FinalAppend(server: Option<StatsEvent>, queue: seq<StatsEvent>, e: StatsEvent)
    ensures Final(server, queue + [e]) == Some(Handled(Final(server, queue), e))
    decreases |queue|
  {
    if queue == [] {
      assert Final(server, queue + [e]) == Final(Some(Handled(server, e)), []);
    } else {
      FinalAppend(Some(Handled(server, queue[0])), queue[1..], e);
      assert (queue + [e])[1..] == queue[1..] + [e];
    }
  }

  // ---- What the server's copy m of a field has to do with the device's field c ----

  /** A stamped field. In batch mode the server may be behind, but then the device's
      stamp is not older, so the closing upload is accepted. A report may have given the
      server a later stamp than the device stores; then the values agree. */
  ghost predicate StampSync<V>(c: Option<Stamped<V>>, m: Option<Stamped<V>>, batch: bool, clock: Milli) {
    && (c.Some? ==> c.value.updateAt <= clock)
    && (m.Some? ==> m.value.updateAt <= clock)
    && (c.Some? && !batch ==> m.Some?)
    && (c.Some? && m.Some? && m.value.value != c.value.value ==> batch && m.value.updateAt <= c.value.updateAt)
  }

  /** A field that never gets cleared: the server knows it only if the device does. */
  ghost predicate Known<A>(c: Option<A>, m: Option<A>) { m.Some? ==> c.Some? }

  ghost predicate Sync(c: StatsEvent, m: StatsEvent, batch: bool, clock: Milli) {
    && c.lastResetAt == m.lastResetAt == ZERO_TIME && m.time <= clock
    && AllStampSync(c, m, batch, clock)
    && PlainSync(c, m, batch)
  }

  ghost predicate AllStampSync(c: StatsEvent, m: StatsEvent, batch: bool, clock: Milli) {
    && StampSync(c.volume, m.volume, batch, clock) && Known(c.volume, m.volume)
    && StampSync(c.brightness, m.brightness, batch, clock) && Known(c.brightness, m.brightness)
    && StampSync(c.lightMode, m.lightMode, batch, clock) && Known(c.lightMode, m.lightMode)
    && StampSync(c.pairStatus, m.pairStatus, batch, clock) && Known(c.pairStatus, m.pairStatus)
    && StampSync(c.wifiStore, m.wifiStore, batch, clock)
  }

  /** The fields without a stamp of their own. */
  ghost predicate PlainSync(c: StatsEvent, m: StatsEvent, batch: bool) {
    && VersionOnly(c.systemVersion) && VersionOnly(m.systemVersion) && Known(c.systemVersion, m.systemVersion)
    && BatteryOnly(c.battery) && Known(c.battery, m.battery) && Known(c.shaking, m.shaking)
    && (!batch ==>
      && m.systemVersion == c.systemVersion && m.battery == c.battery && m.shaking == c.shaking
      && (c.cellular.Some? ==> m.cellular == c.cellular)
      && (c.wifiNetwork.Some? ==> m.wifiNetwork == c.wifiNetwork || m.wifiNetwork == Some(Summary(c.wifiNetwork.value)))
      && (c.readNFCTag.Some? ==> SameTags(m.readNFCTag, c.readNFCTag)))
  }

  /** The device only ever sets the current version, and never stamps it. */
  ghost predicate VersionOnly(v: Option<SystemVersion>) {
    v.Some? ==> v.value == Stamped(NO_VERSION.(currentVersion := v.value.value.currentVersion), ZERO_TIME)
  }

  ghost predicate BatteryOnly(b: Option<Battery>) {
    b.Some? ==> b.value == NO_BATTERY.(percentage := b.value.percentage, isCharging := b.value.isCharging)
  }

  /** What the server holds of the device's data after the queue is drained. */
  function Eventual(s: System): StatsEvent { Final(s.server, s.client.uplink).GetOr(NO_STATS) }

  ghost predicate Inv(s: System) {
    && ZERO_TIME <= s.clock
    && (s.client.pending.Some? ==> s.client.pending.value == NO_STATS)
    && Sync(s.client.stats, Eventual(s), s.client.batchMode, s.clock)
  }

  /** Handling an event that is not stale is merging it, even into nothing. */
  lemma HandledIsMerged(f: Option<StatsEvent>, e: StatsEvent)
    requires ZERO_TIME <= e.time && e.lastResetAt == ZERO_TIME
    ensures Handled(f, e) == Merged(f.GetOr(NO_STATS), e)
  {
  }

  /** The event a call uploads, if any. */
  function Upload(c: Client, op: Op, now: Milli, sentAt: Milli): Option<StatsEvent> {
    match op
    case BeginBatch => None
    case EndBatch => Some(c.stats.(time := sentAt))
    case Periodic(rounds) =>
      if Reports(c.stats, rounds) then Some(Report(NO_STATS, c.stats, rounds, now).(time := sentAt)) else None
    case _ =>
      if c.batchMode then None else Some(Queued(NO_STATS, op, now).(time := sentAt))
  }

  lemma ApplyUploads(c: Client, op: Op, now: Milli, sentAt: Milli)
    requires c.pending.Some? ==> c.pending.value == NO_STATS
    ensures var c' := Apply(c, op, now, sentAt);
      && (c'.pending.Some? ==> c'.pending.value == NO_STATS)
      && c'.uplink == c.uplink + (if Upload(c, op, now, sentAt).Some? then [Upload(c, op, now, sentAt).value] else [])
      && c'.batchMode == (op.BeginBatch? || (c.batchMode && !op.EndBatch?))
      && c'.stats == if op.EndBatch? then c.stats.(time := sentAt) else Stored(c.stats, op, now)
  {
  }

  /** The server's copy after an upload, sent no earlier than anything it has seen. */
  function Folded(m: StatsEvent, upload: Option<StatsEvent>): StatsEvent {
    if upload.None? then m else Merged(m, upload.value)
  }

  predicate IsSetting(op: Op) { !op.BeginBatch? && !op.EndBatch? && !op.Periodic? }

  /** What a setter may do to a field and the server's copy of it: nothing, a new value
      with the stamp of the call, or clearing, which is not sent. */
  ghost predicate Moved<V>(
      c: Option<Stamped<V>>, m: Option<Stamped<V>>, c': Option<Stamped<V>>, m': Option<Stamped<V>>, batch: bool, now: Milli) {
    || (c' == c && m' == m)
    || (c'.Some? && c'.value.updateAt == now && m' == if batch then m else Lww(m, c'))
    || (c'.None? && m' == m)
  }

  lemma MovedSyncs<V>(
      c: Option<Stamped<V>>, m: Option<Stamped<V>>, c': Option<Stamped<V>>, m': Option<Stamped<V>>,
      batch: bool, clock: Milli, now: Milli, sentAt: Milli)
    requires StampSync(c, m, batch, clock) && clock <= now <= sentAt && Moved(c, m, c', m', batch, now)
    ensures StampSync(c', m', batch, sentAt)
    ensures Known(c, m) && (c.Some? ==> c'.Some?) ==> Known(c', m')
  {
  }

  lemma SettingShape(c: Client, m: StatsEvent, op: Op, now: Milli, sentAt: Milli)
    requires m.time <= sentAt && IsSetting(op)
    ensures var (s, s', m', batch) := (c.stats, Stored(c.stats, op, now), Folded(m, Upload(c, op, now, sentAt)), c.batchMode);
      && Moved(s.volume, m.volume, s'.volume, m'.volume, batch, now) && (s.volume.Some? ==> s'.volume.Some?)
      && Moved(s.brightness, m.brightness, s'.brightness, m'.brightness, batch, now)
      && (s.brightness.Some? ==> s'.brightness.Some?)
      && Moved(s.lightMode, m.lightMode, s'.lightMode, m'.lightMode, batch, now)
      && (s.lightMode.Some? ==> s'.lightMode.Some?)
      && Moved(s.pairStatus, m.pairStatus, s'.pairStatus, m'.pairStatus, batch, now)
      && (s.pairStatus.Some? ==> s'.pairStatus.Some?)
      && Moved(s.wifiStore, m.wifiStore, s'.wifiStore, m'.wifiStore, batch, now)
  {
  }

  lemma SettingStamped(c: Client, m: StatsEvent, op: Op, now: Milli, sentAt: Milli, clock: Milli)
    requires AllStampSync(c.stats, m, c.batchMode, clock) && m.time <= clock <= now <= sentAt && IsSetting(op)
    ensures AllStampSync(Stored(c.stats, op, now), Folded(m, Upload(c, op, now, sentAt)), c.batchMode, sentAt)
  {
    var s, s', m', batch := c.stats, Stored(c.stats, op, now), Folded(m, Upload(c, op, now, sentAt)), c.batchMode;
    SettingShape(c, m, op, now, sentAt);
    MovedSyncs(s.volume, m.volume, s'.volume, m'.volume, batch, clock, now, sentAt);
    MovedSyncs(s.brightness, m.brightness, s'.brightness, m'.brightness, batch, clock, now, sentAt);
    MovedSyncs(s.lightMode, m.lightMode, s'.lightMode, m'.lightMode, batch, clock, now, sentAt);
    MovedSyncs(s.pairStatus, m.pairStatus, s'.pairStatus, m'.pairStatus, batch, clock, now, sentAt);
    MovedSyncs(s.wifiStore, m.wifiStore, s'.wifiStore, m'.wifiStore, batch, clock, now, sentAt);
  }

  lemma SettingPlain(c: Client, m: StatsEvent, op: Op, now: Milli, sentAt: Milli)
    requires PlainSync(c.stats, m, c.batchMode) && m.time <= sentAt && IsSetting(op)
    ensures PlainSync(Stored(c.stats, op, now), Folded(m, Upload(c, op, now, sentAt)), c.batchMode)
  {
    match op {
      case SetSystemVersion(_) =>
      case SetBattery(_, _) =>
      case SetShaking(_) =>
      case SetCellular(_) =>
      case SetWifiNetwork(_) =>
      case SetReadNFCTag(_) =>
      case _ =>
    }
  }

  lemma SettingSyncs(c: Client, m: StatsEvent, op: Op, now: Milli, sentAt: Milli, clock: Milli)
    requires Sync(c.stats, m, c.batchMode, clock) && clock <= now <= sentAt && IsSetting(op)
    ensures Sync(Stored(c.stats, op, now), Folded(m, Upload(c, op, now, sentAt)), c.batchMode, sentAt)
  {
    SettingStamped(c, m, op, now, sentAt, clock);
    SettingPlain(c, m, op, now, sentAt);
  }

  /** A report repeats the device's value under the report's own stamp. */
  lemma RestampSyncs<V>(c: Option<Stamped<V>>, m: Option<Stamped<V>>, batch: bool, clock: Milli, now: Milli, sentAt: Milli)
    requires StampSync(c, m, batch, clock) && clock <= now <= sentAt
    ensures StampSync(c, Lww(m, Restamped(c, None, now)), batch, sentAt)
    ensures StampSync(c, m, batch, sentAt)
    ensures Known(c, m) ==> Known(c, Lww(m, Restamped(c, None, now)))
  {
  }

  lemma ReportSyncs(c: Client, m: StatsEvent, rounds: nat, now: Milli, sentAt: Milli, clock: Milli)
    requires Sync(c.stats, m, c.batchMode, clock) && clock <= now <= sentAt
    ensures Sync(c.stats, Folded(m, Upload(c, Periodic(rounds), now, sentAt)), c.batchMode, sentAt)
  {
    ReportStamped(c, m, rounds, now, sentAt, clock);
    ReportPlain(c, m, rounds, now, sentAt);
  }

  lemma ReportStamped(c: Client, m: StatsEvent, rounds: nat, now: Milli, sentAt: Milli, clock: Milli)
    requires AllStampSync(c.stats, m, c.batchMode, clock) && m.time <= clock <= now <= sentAt
    ensures AllStampSync(c.stats, Folded(m, Upload(c, Periodic(rounds), now, sentAt)), c.batchMode, sentAt)
  {
    var s, batch := c.stats, c.batchMode;
    RestampSyncs(s.volume, m.volume, batch, clock, now, sentAt);
    RestampSyncs(s.brightness, m.brightness, batch, clock, now, sentAt);
    RestampSyncs(s.lightMode, m.lightMode, batch, clock, now, sentAt);
    RestampSyncs(s.pairStatus, m.pairStatus, batch, clock, now, sentAt);
    RestampSyncs(s.wifiStore, m.wifiStore, batch, clock, now, sentAt);
    ReportShape(c, m, rounds, now, sentAt);
  }

  /** A report leaves a stamped field of the server's copy alone or restamps it. */
  lemma ReportShape(c: Client, m: StatsEvent, rounds: nat, now: Milli, sentAt: Milli)
    requires m.time <= sentAt
    ensures var (s, m') := (c.stats, Folded(m, Upload(c, Periodic(rounds), now, sentAt)));
      && (m'.volume == m.volume || m'.volume == Lww(m.volume, Restamped(s.volume, None, now)))
      && (m'.brightness == m.brightness || m'.brightness == Lww(m.brightness, Restamped(s.brightness, None, now)))
      && (m'.lightMode == m.lightMode || m'.lightMode == Lww(m.lightMode, Restamped(s.lightMode, None, now)))
      && (m'.pairStatus == m.pairStatus || m'.pairStatus == Lww(m.pairStatus, Restamped(s.pairStatus, None, now)))
      && (m'.wifiStore == m.wifiStore || m'.wifiStore == Lww(m.wifiStore, Restamped(s.wifiStore, None, now)))
  {
  }

  lemma ReportPlain(c: Client, m: StatsEvent, rounds: nat, now: Milli, sentAt: Milli)
    requires PlainSync(c.stats, m, c.batchMode) && m.time <= sentAt
    ensures PlainSync(c.stats, Folded(m, Upload(c, Periodic(rounds), now, sentAt)), c.batchMode)
  {
  }

  lemma FullSyncs<V>(c: Option<Stamped<V>>, m: Option<Stamped<V>>, batch: bool, clock: Milli, sentAt: Milli)
    requires StampSync(c, m, batch, clock) && clock <= sentAt
    ensures StampSync(c, Lww(m, c), false, sentAt) && (Known(c, m) ==> Known(c, Lww(m, c)))
  {
  }

  /** The full upload that ends a batch brings the server up to date. */
  lemma EndBatchSyncs(c: Client, m: StatsEvent, now: Milli, sentAt: Milli, clock: Milli)
    requires Sync(c.stats, m, c.batchMode, clock) && clock <= sentAt
    ensures Sync(c.stats.(time := sentAt), Folded(m, Upload(c, EndBatch, now, sentAt)), false, sentAt)
  {
    var s := c.stats;
    FullSyncs(s.volume, m.volume, c.batchMode, clock, sentAt);
    FullSyncs(s.brightness, m.brightness, c.batchMode, clock, sentAt);
    FullSyncs(s.lightMode, m.lightMode, c.batchMode, clock, sentAt);
    FullSyncs(s.pairStatus, m.pairStatus, c.batchMode, clock, sentAt);
    FullSyncs(s.wifiStore, m.wifiStore, c.batchMode, clock, sentAt);
  }

  lemma EventualAfter(s: System, op: Op, now: Milli, sentAt: Milli, s': System)
    requires Inv(s) && Calls(s, op, now, sentAt, s')
    ensures Eventual(s') == Folded(Eventual(s), Upload(s.client, op, now, sentAt))
  {
    var c, upload := s.client, Upload(s.client, op, now, sentAt);
    ApplyUploads(c, op, now, sentAt);
    if upload.Some? {
      UploadHeader(c, op, now, sentAt);
      FinalAppend(s.server, c.uplink, upload.value);
      HandledIsMerged(Final(s.server, c.uplink), upload.value);
    } else {
      assert c.uplink + [] == c.uplink;
    }
  }

  lemma UploadHeader(c: Client, op: Op, now: Milli, sentAt: Milli)
    requires c.stats.lastResetAt == ZERO_TIME && Upload(c, op, now, sentAt).Some?
    ensures Upload(c, op, now, sentAt).value.time == sentAt
    ensures Upload(c, op, now, sentAt).value.lastResetAt == ZERO_TIME
  {
  }

  lemma SyncAfter(c: Client, m: StatsEvent, op: Op, now: Milli, sentAt: Milli, clock: Milli)
    requires Sync(c.stats, m, c.batchMode, clock) && clock <= now <= sentAt
    requires c.pending.Some? ==> c.pending.value == NO_STATS
    ensures var c' := Apply(c, op, now, sentAt);
      Sync(c'.stats, Folded(m, Upload(c, op, now, sentAt)), c'.batchMode, sentAt)
  {
    ApplyUploads(c, op, now, sentAt);
    match op {
      case BeginBatch =>
      case EndBatch => EndBatchSyncs(c, m, now, sentAt, clock);
      case Periodic(rounds) => ReportSyncs(c, m, rounds, now, sentAt, clock);
      case _ => SettingSyncs(c, m, op, now, sentAt, clock);
    }
  }

  lemma CallKeeps(s: System, op: Op, now: Milli, sentAt: Milli, s': System)
    requires Inv(s) && Calls(s, op, now, sentAt, s')
    ensures Inv(s')
  {
    ApplyUploads(s.client, op, now, sentAt);
    EventualAfter(s, op, now, sentAt, s');
    SyncAfter(s.client, Eventual(s), op, now, sentAt, s.clock);
  }

  lemma StepKeeps(s: System, s': System)
    requires Inv(s) && Step(s, s')
    ensures Inv(s')
  {
    if op, now, sentAt :| Calls(s, op, now, sentAt, s') {
      CallKeeps(s, op, now, sentAt, s');
    }
  }

  lemma ReachableInv(s: System)
    requires Reachable(s)
    ensures Inv(s)
  {
    var clock :| ZERO_TIME <= clock && Leads(StepFn(), System(NEW_CLIENT, None, clock), s);
    var inv := t => Inv(t);
    forall a, b | inv(a) && StepFn()(a, b) ensures inv(b) {
      StepKeeps(a, b);
    }
    Keeps(StepFn(), inv, System(NEW_CLIENT, None, clock), s);
  }

  function Value<V>(f: Option<Stamped<V>>): Option<V> {
    if f.None? then None else Some(f.value.value)
  }

  /** Convergence. In every run, whenever batch mode is off, the server ends up with the
      device's settings once it has handled what is queued: the values of everything
      that is stamped, the whole of what is not. What the device has cleared is never
      sent, wifi networks agree at least in what reports repeat of them, and tags in
      their identifiers. */
  lemma Converges(s: System)
    requires Reachable(s) && !s.client.batchMode
    ensures var (c, m) := (s.client.stats, Eventual(s));
      && Value(m.volume) == Value(c.volume)
      && Value(m.brightness) == Value(c.brightness)
      && Value(m.lightMode) == Value(c.lightMode)
      && Value(m.pairStatus) == Value(c.pairStatus)
      && m.battery == c.battery && m.shaking == c.shaking && m.systemVersion == c.systemVersion
      && (c.wifiStore.Some? ==> Value(m.wifiStore) == Value(c.wifiStore))
      && (c.cellular.Some? ==> m.cellular == c.cellular)
      && (c.wifiNetwork.Some? ==>
            m.wifiNetwork == c.wifiNetwork || m.wifiNetwork == Some(Summary(c.wifiNetwork.value)))
      && (c.readNFCTag.Some? ==> m.readNFCTag.Some? && Uids(m.readNFCTag.value) == Uids(c.readNFCTag.value))
  {
    ReachableInv(s);
  }

  // ---- Where full equality stops ----

  /** What a call leaves at the server, for a call made in a reachable state. */
  lemma EventualCall(s: System, op: Op, now: Milli, sentAt: Milli, s': System)
    requires Reachable(s) && Calls(s, op, now, sentAt, s')
    ensures Eventual(s') == Folded(Eventual(s), Upload(s.client, op, now, sentAt))
    ensures Eventual(s).time <= sentAt && Eventual(s).lastResetAt == ZERO_TIME
  {
    ReachableInv(s);
    EventualAfter(s, op, now, sentAt, s');
  }

  /** After a minute report the server holds the summary of the wifi network, so it
      holds the network itself exactly when there is nothing beyond the summary. */
  lemma ReportTrimsWifi(s: System, rounds: nat, now: Milli, sentAt: Milli, s': System)
    requires Reachable(s) && Calls(s, Periodic(rounds), now, sentAt, s') && rounds % 3 == 0
    requires s.client.stats.wifiNetwork.Some?
    ensures var w := s.client.stats.wifiNetwork.value;
      && Eventual(s').wifiNetwork == Some(Summary(w))
      && (Eventual(s').wifiNetwork == s'.client.stats.wifiNetwork <==> w == Summary(w))
  {
    EventualCall(s, Periodic(rounds), now, sentAt, s');
  }

  /** Clearing a field is not transmitted: the server agrees afterwards exactly when it
      had nothing there before. */
  lemma ClearingIsSilent(s: System, op: Op, now: Milli, sentAt: Milli, s': System)
    requires Reachable(s) && Calls(s, op, now, sentAt, s')
    requires op in {SetWifiNetwork(None), SetWifiStore(None), SetCellular(None), SetReadNFCTag(None)}
    ensures var (m, m', c') := (Eventual(s), Eventual(s'), s'.client.stats);
      && m' == m.(time := if s.client.batchMode then m.time else sentAt)
      && (op.SetCellular? ==> (m'.cellular == c'.cellular <==> m.cellular.None?))
      && (op.SetWifiNetwork? ==> (m'.wifiNetwork == c'.wifiNetwork <==> m.wifiNetwork.None?))
      && (op.SetWifiStore? ==> (m'.wifiStore == c'.wifiStore <==> m.wifiStore.None?))
      && (op.SetReadNFCTag? ==> (m'.readNFCTag == c'.readNFCTag <==> m.readNFCTag.None?))
  {
    EventualCall(s, op, now, sentAt, s');
  }

  /** A tag reading reaches the server exactly when its identifiers are news there, or
      it was there already. */
  lemma TagsReachServer(s: System, tags: seq<NFCTag>, now: Milli, sentAt: Milli, s': System)
    requires Reachable(s) && Calls(s, SetReadNFCTag(Some(tags)), now, sentAt, s') && !s.client.batchMode
    ensures var before := Eventual(s).readNFCTag;
      Eventual(s').readNFCTag == Some(tags) <==>
        before.None? || before.value == tags || Uids(before.value) != Uids(tags)
  {
    EventualCall(s, SetReadNFCTag(Some(tags)), now, sentAt, s');
  }

  /** Whether, after a report at time now, the server holds the device's value under that
      time, which is the device's entry iff the device set it at that very time. */
  ghost predicate RestampedAt<V>(c: Option<Stamped<V>>, m: Option<Stamped<V>>, now: Milli) {
    c.Some? ==> m == Some(c.value.(updateAt := now)) && (m == c <==> c.value.updateAt == now)
  }

  /** Reports restamp: of every setting a report carries, batch mode or not, server and
      device end up with the same stamp iff the stored one is the report's own time. */
  lemma ReportRestamps(s: System, rounds: nat, now: Milli, sentAt: Milli, s': System)
    requires Reachable(s) && Calls(s, Periodic(rounds), now, sentAt, s')
    ensures var (c, m) := (s'.client.stats, Eventual(s'));
      && c == s.client.stats
      && (rounds % 3 == 0 ==>
            RestampedAt(c.volume, m.volume, now) && RestampedAt(c.brightness, m.brightness, now)
            && RestampedAt(c.lightMode, m.lightMode, now) && RestampedAt(c.pairStatus, m.pairStatus, now))
      && (rounds % 30 == 2 ==> RestampedAt(c.wifiStore, m.wifiStore, now))
  {
    ReachableInv(s);
    EventualCall(s, Periodic(rounds), now, sentAt, s');
  }

  /** Values converge, stamps need not: after a volume setting and a minute report the
      server's stamp is later than the device's. */
  lemma StampsMayDiffer(clock: Milli) returns (s: System)
    requires ZERO_TIME <= clock
    ensures Reachable(s) && !s.client.batchMode && s.client.uplink != []
    ensures Eventual(s).volume == Some(Stamped(50.0, clock + 1))
    ensures s.client.stats.volume == Some(Stamped(50.0, clock))
  {
    var s0 := System(NEW_CLIENT, None, clock);
    Stay(StepFn(), s0);
    var s1 := s0.(client := Apply(s0.client, SetVolume(50), clock, clock));
    assert Calls(s0, SetVolume(50), clock, clock, s1);
    Extend(StepFn(), s0, s0, s1);
    s := s1.(client := Apply(s1.client, Periodic(3), clock + 1, clock + 1), clock := clock + 1);
    assert Calls(s1, Periodic(3), clock + 1, clock + 1, s);
    Extend(StepFn(), s0, s1, s);
    EventualCall(s0, SetVolume(50), clock, clock, s1);
    EventualCall(s1, Periodic(3), clock + 1, clock + 1, s);
  }
}
