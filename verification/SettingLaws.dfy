/** What a device program can rely on: what it sets is what is stored, what is uploaded,
    and what a batch or a periodic report sends on its behalf. */
module SettingLaws {
  import opened Common
  import opened Stats
  import opened ClientPort
  import opened Replication

  /** Event or store e holds what op set at time now. */
  predicate Shows(e: StatsEvent, op: Op, now: Milli) {
    match op
    case SetVolume(v) => e.volume == Some(Stamped(v as real, now))
    case SetBrightness(b) => e.brightness == Some(Stamped(b as real, now))
    case SetLightMode(m) => e.lightMode == Some(Stamped(m, now))
    case SetBattery(pct, ch) =>
      e.battery.Some? && e.battery.value.percentage == pct as real && e.battery.value.isCharging == ch
    case SetWifiNetwork(w) => e.wifiNetwork == w
    case SetWifiStore(l) =>
      if l.None? then e.wifiStore == None else e.wifiStore == Some(Stamped(l.value, now))
    case SetSystemVersion(v) => e.systemVersion.Some? && e.systemVersion.value.value.currentVersion == v
    case SetCellular(c) => e.cellular == c
    case SetPairStatus(p) => e.pairStatus == Some(Stamped(p, now))
    case SetReadNFCTag(t) => e.readNFCTag == t
    case SetShaking(l) => e.shaking == Some(Shaking(l))
    case _ => true
  }

  /** b differs from a at most in the field that op sets. */
  predicate SameElsewhere(op: Op, a: StatsEvent, b: StatsEvent) {
    match op
    case SetVolume(_) => b == a.(volume := b.volume)
    case SetBrightness(_) => b == a.(brightness := b.brightness)
    case SetLightMode(_) => b == a.(lightMode := b.lightMode)
    case SetBattery(_, _) => b == a.(battery := b.battery)
    case SetWifiNetwork(_) => b == a.(wifiNetwork := b.wifiNetwork)
    case SetWifiStore(_) => b == a.(wifiStore := b.wifiStore)
    case SetSystemVersion(_) => b == a.(systemVersion := b.systemVersion)
    case SetCellular(_) => b == a.(cellular := b.cellular)
    case SetPairStatus(_) => b == a.(pairStatus := b.pairStatus)
    case SetReadNFCTag(_) => b == a.(readNFCTag := b.readNFCTag)
    case SetShaking(_) => b == a.(shaking := b.shaking)
    case _ => b == a
  }

  /** Two readings of a battery, or of a version, that agree in all a setter leaves alone. */
  predicate SameReadings(a: Battery, b: Battery) {
    b == a.(percentage := b.percentage, isCharging := b.isCharging)
  }

  predicate SameHistory(a: SystemVersion, b: SystemVersion) {
    a.updateAt == b.updateAt && b.value == a.value.(currentVersion := b.value.currentVersion)
  }

  /** Whatever the mode, a setter stores its argument with its stamp, and nothing else. */
  lemma SetterStores(c: Client, op: Op, now: Milli, sentAt: Milli)
    requires IsSetting(op)
    ensures var (s, s') := (c.stats, Apply(c, op, now, sentAt).stats);
      && Shows(s', op, now) && SameElsewhere(op, s, s')
      && (op.SetBattery? ==> SameReadings(s.battery.GetOr(NO_BATTERY), s'.battery.value))
      && (op.SetSystemVersion? ==>
            SameHistory(s.systemVersion.GetOr(Stamped(NO_VERSION, ZERO_TIME)), s'.systemVersion.value))
    ensures Apply(c, op, now, sentAt).batchMode == c.batchMode
  {
  }

  /** Outside batch mode a setter uploads one event, which carries its argument whole, the
      sending time, and otherwise only what was pending; in batch mode nothing is sent. */
  lemma SetterUploads(c: Client, op: Op, now: Milli, sentAt: Milli)
    requires IsSetting(op)
    ensures var c' := Apply(c, op, now, sentAt);
      if c.batchMode then c'.uplink == c.uplink && c'.pending == c.pending
      else
        && |c'.uplink| == |c.uplink| + 1 && c'.uplink[..|c.uplink|] == c.uplink && c'.pending == None
        && var e := c'.uplink[|c.uplink|];
           && e.time == sentAt && Shows(e, op, now)
           && SameElsewhere(op, c.pending.GetOr(NO_STATS).(time := sentAt), e)
           && (op.SetBattery? ==> SameReadings(NO_BATTERY, e.battery.value))
           && (op.SetSystemVersion? ==> SameHistory(Stamped(NO_VERSION, ZERO_TIME), e.systemVersion.value))
  {
  }

  // ---- Batches ----

  datatype Call = Call(op: Op, now: Milli, sentAt: Milli)

  function RunCalls(c: Client, calls: seq<Call>): Client {
    if calls == [] then c
    else
      var last := calls[|calls| - 1];
      Apply(RunCalls(c, calls[..|calls| - 1]), last.op, last.now, last.sentAt)
  }

  /** Whether two calls set the same field. */
  predicate SameField(a: Op, b: Op) {
    match a
    case SetVolume(_) => b.SetVolume?
    case SetBrightness(_) => b.SetBrightness?
    case SetLightMode(_) => b.SetLightMode?
    case SetBattery(_, _) => b.SetBattery?
    case SetWifiNetwork(_) => b.SetWifiNetwork?
    case SetWifiStore(_) => b.SetWifiStore?
    case SetSystemVersion(_) => b.SetSystemVersion?
    case SetCellular(_) => b.SetCellular?
    case SetPairStatus(_) => b.SetPairStatus?
    case SetReadNFCTag(_) => b.SetReadNFCTag?
    case SetShaking(_) => b.SetShaking?
    case _ => false
  }

  /** A call that does not set the field leaves it as it is. */
  lemma OtherCallKeeps(c: Client, mine: Op, at: Milli, call: Call)
    requires IsSetting(mine) && Shows(c.stats, mine, at) && !SameField(mine, call.op)
    ensures Shows(Apply(c, call.op, call.now, call.sentAt).stats, mine, at)
  {
    if IsSetting(call.op) {
      SetterStores(c, call.op, call.now, call.sentAt);
    }
  }

  /** Whatever is called in between, batches and reports included, the store shows the last
      setting of every field. */
  lemma {:induction false} LastSettingStored(c: Client, calls: seq<Call>, i: nat)
    requires i < |calls| && IsSetting(calls[i].op)
    requires forall j :: i < j < |calls| ==> !SameField(calls[i].op, calls[j].op)
    ensures Shows(RunCalls(c, calls).stats, calls[i].op, calls[i].now)
    decreases |calls|
  {
    var n := |calls| - 1;
    if i == n {
      SetterStores(RunCalls(c, calls[..n]), calls[n].op, calls[n].now, calls[n].sentAt);
    } else {
      LastSettingStored(c, calls[..n], i);
      OtherCallKeeps(RunCalls(c, calls[..n]), calls[i].op, calls[i].now, calls[n]);
    }
  }

  /** Ending a batch uploads one event, which carries the argument and the stamp of the
      last setter call for every field that was ever set. */
  lemma BatchUploadsLastSettings(c: Client, calls: seq<Call>, i: nat, now: Milli, sentAt: Milli)
    requires i < |calls| && IsSetting(calls[i].op)
    requires forall j :: i < j < |calls| ==> !SameField(calls[i].op, calls[j].op)
    ensures var (before, after) := (RunCalls(c, calls), Apply(RunCalls(c, calls), EndBatch, now, sentAt));
      && !after.batchMode
      && |after.uplink| == |before.uplink| + 1 && after.uplink[..|before.uplink|] == before.uplink
      && var e := after.uplink[|before.uplink|];
         e.time == sentAt && Shows(e, calls[i].op, calls[i].now)
  {
    LastSettingStored(c, calls, i);
  }

  // ---- Periodic reports ----

  /** e says nothing about the device that is not stored; settings bear the report's time. */
  predicate ReportsOnly(e: StatsEvent, s: StatsEvent, now: Milli) {
    && (e.volume.Some? ==> s.volume.Some? && e.volume.value == Stamped(s.volume.value.value, now))
    && (e.brightness.Some? ==> s.brightness.Some? && e.brightness.value == Stamped(s.brightness.value.value, now))
    && (e.lightMode.Some? ==> s.lightMode.Some? && e.lightMode.value == Stamped(s.lightMode.value.value, now))
    && (e.pairStatus.Some? ==> s.pairStatus.Some? && e.pairStatus.value == Stamped(s.pairStatus.value.value, now))
    && (e.wifiStore.Some? ==> s.wifiStore.Some? && e.wifiStore.value == Stamped(s.wifiStore.value.value, now))
    && (e.battery.Some? ==> s.battery.Some? && SameCharge(e.battery.value, s.battery.value))
    && (e.systemVersion.Some? ==> s.systemVersion.Some? && SameCurrent(e.systemVersion.value, s.systemVersion.value))
    && (e.wifiNetwork.Some? ==> s.wifiNetwork.Some? && SameNetwork(e.wifiNetwork.value, s.wifiNetwork.value))
    && (e.shaking.Some? ==> e.shaking == s.shaking)
    && (e.cellular.Some? ==> e.cellular == s.cellular)
    && e.readNFCTag.None?
  }

  /** What a report repeats of a battery, a version and a wifi network. */
  predicate SameCharge(a: Battery, b: Battery) {
    a == NO_BATTERY.(percentage := b.percentage, isCharging := b.isCharging)
  }

  predicate SameCurrent(a: SystemVersion, b: SystemVersion) {
    a == Stamped(NO_VERSION.(currentVersion := b.value.currentVersion), ZERO_TIME)
  }

  predicate SameNetwork(a: Wifi, b: Wifi) {
    a == NO_WIFI.(ssid := b.ssid, rssi := b.rssi, ip := b.ip, gateway := b.gateway)
  }

  /** Which fields the report of a round carries: every minute the settings, the battery,
      the version and the wifi network; every two minutes shaking and the cellular
      network; every ten minutes the wifi store; a round is 20 seconds. */
  predicate CarriesDue(e: StatsEvent, s: StatsEvent, rounds: nat) {
    && (e.volume.Some? <==> rounds % 3 == 0 && s.volume.Some?)
    && (e.brightness.Some? <==> rounds % 3 == 0 && s.brightness.Some?)
    && (e.lightMode.Some? <==> rounds % 3 == 0 && s.lightMode.Some?)
    && (e.pairStatus.Some? <==> rounds % 3 == 0 && s.pairStatus.Some?)
    && (e.battery.Some? <==> rounds % 3 == 0 && s.battery.Some?)
    && (e.systemVersion.Some? <==> rounds % 3 == 0 && s.systemVersion.Some?)
    && (e.wifiNetwork.Some? <==> rounds % 3 == 0 && s.wifiNetwork.Some?)
    && (e.shaking.Some? <==> rounds % 6 == 1 && s.shaking.Some?)
    && (e.cellular.Some? <==> rounds % 6 == 1 && s.cellular.Some?)
    && (e.wifiStore.Some? <==> rounds % 30 == 2 && s.wifiStore.Some?)
  }

  /** A report changes nothing on the device but its queue: it uploads what is due and
      known, truthfully, or, if nothing is, nothing. */
  lemma ReportUploads(c: Client, rounds: nat, now: Milli, sentAt: Milli)
    requires c.pending.GetOr(NO_STATS) == NO_STATS
    ensures var c' := Apply(c, Periodic(rounds), now, sentAt);
      && c'.stats == c.stats && c'.batchMode == c.batchMode && c'.pending.GetOr(NO_STATS) == NO_STATS
      && (if c'.uplink == c.uplink then CarriesDue(NO_STATS, c.stats, rounds)
          else
            && |c'.uplink| == |c.uplink| + 1 && c'.uplink[..|c.uplink|] == c.uplink
            && var e := c'.uplink[|c.uplink|];
               e.time == sentAt && ReportsOnly(e, c.stats, now) && CarriesDue(e, c.stats, rounds)
               && e != NO_STATS.(time := sentAt))
  {
    ReportFields(c.stats, rounds, now);
    var r := Report(NO_STATS, c.stats, rounds, now);
    if !Reports(c.stats, rounds) {
      assert r == NO_STATS;
    } else {
      assert Apply(c, Periodic(rounds), now, sentAt).uplink == c.uplink + [r.(time := sentAt)];
    }
  }

  lemma ReportFields(s: StatsEvent, rounds: nat, now: Milli)
    ensures var r := Report(NO_STATS, s, rounds, now);
      && ReportsOnly(r, s, now) && CarriesDue(r, s, rounds)
      && (Reports(s, rounds) <==> r != NO_STATS)
  {
  }

  /** In every ten minutes of reports each due date comes up. */
  lemma EveryFieldDue(rounds: nat) returns (minute: nat, two: nat, ten: nat)
    ensures rounds <= minute < rounds + 3 && minute % 3 == 0
    ensures rounds <= two < rounds + 6 && two % 6 == 1
    ensures rounds <= ten < rounds + 30 && ten % 30 == 2
  {
    ten := NextDue(rounds, 30, 2);
    two := NextDue(rounds, 6, 1);
    minute := NextDue(rounds, 3, 0);
  }

  /** The first number from n on that leaves r when divided by m. */
  lemma {:induction false} NextDue(n: nat, m: nat, r: nat) returns (k: nat)
    requires r < m
    ensures n <= k < n + m && k % m == r
  {
    var q := n / m;
    assert n == q * m + n % m;
    if n % m <= r {
      k := n + (r - n % m);
      ModIs(k, q, r, m);
    } else {
      k := n + (m - n % m) + r;
      assert (q + 1) * m == q * m + m;
      ModIs(k, q + 1, r, m);
    }
  }
}
