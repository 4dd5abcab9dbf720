/** Device statistics: the events a device uploads, the merge that folds them into the
    server's copy, and the diff the merge reports. */
module Stats {
  import opened Common

  /** Milliseconds since the epoch. */
  type Milli = int

  /** Go's zero `time.Time`, the value of a time field that was never set. */
  const ZERO_TIME: Milli := -62135596800000

  /** A setting with the time of its last update. */
  datatype Stamped<+V> = Stamped(value: V, updateAt: Milli)

  datatype ComponentVersion = ComponentVersion(name: string, currentVersion: string)
  datatype VersionInfo = VersionInfo(
    currentVersion: string, installingPercentage: real, installingVersion: string,
    components: seq<ComponentVersion>)
  datatype WifiStoreItem = WifiStoreItem(lastConnectAt: Milli, security: string, ssid: string)

  type SystemVersion = Stamped<VersionInfo>
  type Volume = Stamped<real>
  type Brightness = Stamped<real>
  type LightMode = Stamped<string>
  type PairStatus = Stamped<string>
  type StoredWifiList = Stamped<seq<WifiStoreItem>>

  datatype Battery = Battery(
    currentCapacity: real, cycleCount: real, isCharging: bool, originalCapacity: real,
    percentage: real, temperature: real, voltage: real)

  /** A time as the struct that `==` compares: the instant, and how it is held (its
      location and monotonic reading). Equal instants may be different times. */
  datatype Time = Time(at: Milli, form: int)

  datatype Ping = Ping(recvAt: Time, sendAt: Time, timestamp: Time, latency: real)
  datatype Cellular = Cellular(
    dns: seq<string>, gateway: string, ip: string, netMask: string, rssi: real, ping: Option<Ping>)
  datatype Wifi = Wifi(
    bssid: string, dns: seq<string>, gateway: string, ip: string, netMask: string, mac: string,
    rssi: real, security: string, ssid: string, ping: Option<Ping>)
  datatype NFCTag = NFCTag(
    uid: string, kind: string, rawData: seq<int>, dataFormat: string, rssi: real, updateAt: Milli)
  datatype Shaking = Shaking(level: real)

  datatype StatsEvent = StatsEvent(
    time: Milli, lastResetAt: Milli,
    battery: Option<Battery>, systemVersion: Option<SystemVersion>, volume: Option<Volume>,
    brightness: Option<Brightness>, lightMode: Option<LightMode>, cellular: Option<Cellular>,
    wifiNetwork: Option<Wifi>, wifiStore: Option<StoredWifiList>, readNFCTag: Option<seq<NFCTag>>,
    pairStatus: Option<PairStatus>, shaking: Option<Shaking>)

  datatype StatsChanges = StatsChanges(
    time: Milli, lastResetAt: Option<Milli>,
    battery: Option<Battery>, systemVersion: Option<SystemVersion>, volume: Option<Volume>,
    brightness: Option<Brightness>, lightMode: Option<LightMode>, cellular: Option<Cellular>,
    wifiNetwork: Option<Wifi>, wifiStore: Option<StoredWifiList>, readNFCTag: Option<seq<NFCTag>>,
    pairStatus: Option<PairStatus>, shaking: Option<Shaking>)

  const NO_STATS := StatsEvent(ZERO_TIME, ZERO_TIME,
    None, None, None, None, None, None, None, None, None, None, None)

  const NO_CHANGES := StatsChanges(ZERO_TIME, None,
    None, None, None, None, None, None, None, None, None, None, None)

  // ---- Equality ----

  /** The identifiers among the tags. */
  function Uids(tags: seq<NFCTag>): set<string> { set t | t in tags :: t.uid }

  /** Tag readings are the same when they show the same identifiers, in any order and
      whatever else the tags carry. */
  predicate SameTags(a: Option<seq<NFCTag>>, b: Option<seq<NFCTag>>) {
    if a.None? || b.None? then a == b else Uids(a.value) == Uids(b.value)
  }

  method CellularEqual(a: Option<Cellular>, b: Option<Cellular>) returns (same: bool)
    ensures same <==> a == b
  {
    if a.None? || b.None? {
      return a.None? && b.None?;
    }
    var c, d := a.value, b.value;
    if !(c.gateway == d.gateway && c.ip == d.ip && c.netMask == d.netMask && c.rssi == d.rssi && c.ping == d.ping) {
      return false;
    }
    same := DnsEqual(c.dns, d.dns);
  }

  method WifiEqual(a: Option<Wifi>, b: Option<Wifi>) returns (same: bool)
    ensures same <==> a == b
  {
    if a.None? || b.None? {
      return a.None? && b.None?;
    }
    var c, d := a.value, b.value;
    if !(c.bssid == d.bssid && c.gateway == d.gateway && c.ip == d.ip && c.mac == d.mac && c.netMask == d.netMask
         && c.rssi == d.rssi && c.security == d.security && c.ssid == d.ssid && c.ping == d.ping) {
      return false;
    }
    same := DnsEqual(c.dns, d.dns);
  }

  method DnsEqual(a: seq<string>, b: seq<string>) returns (same: bool)
    ensures same <==> a == b
  {
    if |a| != |b| {
      return false;
    }
    for i := 0 to |a|
      invariant a[..i] == b[..i]
    {
      if a[i] != b[i] {
        return false;
      }
    }
    return true;
  }

  method UidsOf(tags: seq<NFCTag>) returns (uids: set<string>)
    ensures uids == Uids(tags)
  {
    uids := {};
    for i := 0 to |tags|
      invariant uids == Uids(tags[..i])
    {
      assert tags[..i + 1] == tags[..i] + [tags[i]];
      uids := uids + {tags[i].uid};
    }
    assert tags[..|tags|] == tags;
  }

  /** Compares the sizes of the two identifier sets and one inclusion. */
  method NFCTagEqual(a: Option<seq<NFCTag>>, b: Option<seq<NFCTag>>) returns (same: bool)
    ensures same <==> SameTags(a, b)
  {
    if a.None? || b.None? {
      return a.None? && b.None?;
    }
    var mine := UidsOf(a.value);
    var theirs := UidsOf(b.value);
    if |mine| != |theirs| {
      return false;
    }
    var rest := mine;
    while rest != {}
      invariant rest <= mine && mine - rest <= theirs
    {
      var uid :| uid in rest;
      if uid !in theirs {
        return false;
      }
      rest := rest - {uid};
    }
    SubsetOfSameSize(mine, theirs);
    return true;
  }

  lemma SubsetOfSameSize<A>(a: set<A>, b: set<A>)
    requires a <= b && |a| == |b|
    ensures a == b
  {
    assert |b - a| == 0;
  }

  // ---- Merging ----

  /** Last writer wins; an equal stamp counts as later. */
  function Lww<V>(cur: Option<Stamped<V>>, inc: Option<Stamped<V>>): Option<Stamped<V>> {
    if inc.None? then cur
    else if cur.None? || cur.value.updateAt <= inc.value.updateAt then inc
    else cur
  }

  /** What replaces cur where an incoming value differs from it. */
  function Replaced<A>(cur: Option<A>, inc: Option<A>, same: bool): Option<A> {
    if inc.None? || same then cur else inc
  }

  /** The server's copy after folding in event o. */
  function Merged(e: StatsEvent, o: StatsEvent): StatsEvent {
    if o.time < e.time then e else
    StatsEvent(
      o.time,
      if o.lastResetAt > e.lastResetAt then o.lastResetAt else e.lastResetAt,
      Replaced(e.battery, o.battery, e.battery == o.battery),
      Lww(e.systemVersion, o.systemVersion),
      Lww(e.volume, o.volume),
      Lww(e.brightness, o.brightness),
      Lww(e.lightMode, o.lightMode),
      Replaced(e.cellular, o.cellular, e.cellular == o.cellular),
      Replaced(e.wifiNetwork, o.wifiNetwork, e.wifiNetwork == o.wifiNetwork),
      Lww(e.wifiStore, o.wifiStore),
      Replaced(e.readNFCTag, o.readNFCTag, SameTags(o.readNFCTag, e.readNFCTag)),
      Lww(e.pairStatus, o.pairStatus),
      Replaced(e.shaking, o.shaking, e.shaking == o.shaking))
  }

  /** An incoming stamped field is reported unless it is older than what is there. */
  function LwwDiff<V>(cur: Option<Stamped<V>>, inc: Option<Stamped<V>>): Option<Stamped<V>> {
    if inc.Some? && cur.Some? && inc.value.updateAt < cur.value.updateAt then None else inc
  }

  function ReplacedDiff<A>(inc: Option<A>, same: bool): Option<A> {
    if same then None else inc
  }

  function FieldDiff(e: StatsEvent, o: StatsEvent): StatsChanges {
    StatsChanges(
      ZERO_TIME,
      if o.lastResetAt > e.lastResetAt then Some(o.lastResetAt) else None,
      ReplacedDiff(o.battery, e.battery == o.battery),
      LwwDiff(e.systemVersion, o.systemVersion),
      LwwDiff(e.volume, o.volume),
      LwwDiff(e.brightness, o.brightness),
      LwwDiff(e.lightMode, o.lightMode),
      ReplacedDiff(o.cellular, e.cellular == o.cellular),
      ReplacedDiff(o.wifiNetwork, e.wifiNetwork == o.wifiNetwork),
      LwwDiff(e.wifiStore, o.wifiStore),
      ReplacedDiff(o.readNFCTag, SameTags(o.readNFCTag, e.readNFCTag)),
      LwwDiff(e.pairStatus, o.pairStatus),
      ReplacedDiff(o.shaking, e.shaking == o.shaking))
  }

  /** The changes MergeWith reports: none for a stale event or when no field changed. */
  function Diff(e: StatsEvent, o: StatsEvent): Option<StatsChanges> {
    if o.time < e.time || FieldDiff(e, o) == NO_CHANGES then None
    else Some(FieldDiff(e, o).(time := o.time))
  }

  /** The case split of MergeWith on a stamped field: its new value and its diff. */
  method TakeStamped<V>(cur: Option<Stamped<V>>, inc: Option<Stamped<V>>)
    returns (next: Option<Stamped<V>>, diff: Option<Stamped<V>>)
    ensures next == Lww(cur, inc) && diff == LwwDiff(cur, inc)
  {
    next, diff := cur, None;
    if inc.Some? && (cur.None? || !(inc.value.updateAt < cur.value.updateAt)) {
      next, diff := inc, inc;
    }
  }

  /** The case split of MergeWith on a field that is replaced when it differs. */
  method TakeOther<A>(cur: Option<A>, inc: Option<A>, same: bool) returns (next: Option<A>, diff: Option<A>)
    ensures next == Replaced(cur, inc, same) && diff == ReplacedDiff(inc, same)
  {
    next, diff := cur, None;
    if inc.Some? && !same {
      next, diff := inc, inc;
    }
  }

  /** The server's record, merged into in place. */
  class StatsRecord {
    var time: Milli
    var lastResetAt: Milli
    var battery: Option<Battery>
    var systemVersion: Option<SystemVersion>
    var volume: Option<Volume>
    var brightness: Option<Brightness>
    var lightMode: Option<LightMode>
    var cellular: Option<Cellular>
    var wifiNetwork: Option<Wifi>
    var wifiStore: Option<StoredWifiList>
    var readNFCTag: Option<seq<NFCTag>>
    var pairStatus: Option<PairStatus>
    var shaking: Option<Shaking>

    function View(): StatsEvent
      reads this
    {
      StatsEvent(time, lastResetAt, battery, systemVersion, volume, brightness, lightMode, cellular,
                 wifiNetwork, wifiStore, readNFCTag, pairStatus, shaking)
    }

    /** A clone of event e. */
    constructor Clone(e: StatsEvent)
      ensures View() == e
    {
      time, lastResetAt := e.time, e.lastResetAt;
      battery, systemVersion, volume := e.battery, e.systemVersion, e.volume;
      brightness, lightMode, cellular := e.brightness, e.lightMode, e.cellular;
      wifiNetwork, wifiStore, readNFCTag := e.wifiNetwork, e.wifiStore, e.readNFCTag;
      pairStatus, shaking := e.pairStatus, e.shaking;
    }

    method MergeWith(other: StatsEvent) returns (changes: Option<StatsChanges>)
      modifies this
      ensures View() == Merged(old(View()), other)
      ensures changes == Diff(old(View()), other)
    {
      if other.time < time {
        return None;
      }
      time := other.time;
      var diff := NO_CHANGES;
      if other.lastResetAt > lastResetAt {
        lastResetAt := other.lastResetAt;
        diff := diff.(lastResetAt := Some(other.lastResetAt));
      }
      diff := MergeStamped(other, diff);
      diff := MergeReplaced(other, diff);
      if diff == NO_CHANGES {
        return None;
      }
      return Some(diff.(time := time));
    }

    /** The last-writer-wins fields. */
    method MergeStamped(other: StatsEvent, before: StatsChanges) returns (diff: StatsChanges)
      modifies this`systemVersion, this`volume, this`brightness, this`lightMode, this`pairStatus, this`wifiStore
      ensures systemVersion == Lww(old(systemVersion), other.systemVersion)
      ensures volume == Lww(old(volume), other.volume)
      ensures brightness == Lww(old(brightness), other.brightness)
      ensures lightMode == Lww(old(lightMode), other.lightMode)
      ensures pairStatus == Lww(old(pairStatus), other.pairStatus)
      ensures wifiStore == Lww(old(wifiStore), other.wifiStore)
      ensures diff == before.(
        systemVersion := LwwDiff(old(systemVersion), other.systemVersion),
        volume := LwwDiff(old(volume), other.volume),
        brightness := LwwDiff(old(brightness), other.brightness),
        lightMode := LwwDiff(old(lightMode), other.lightMode),
        pairStatus := LwwDiff(old(pairStatus), other.pairStatus),
        wifiStore := LwwDiff(old(wifiStore), other.wifiStore))
    {
      var d1, d2, d3, d4, d5, d6;
      systemVersion, d1 := TakeStamped(systemVersion, other.systemVersion);
      volume, d2 := TakeStamped(volume, other.volume);
      brightness, d3 := TakeStamped(brightness, other.brightness);
      lightMode, d4 := TakeStamped(lightMode, other.lightMode);
      pairStatus, d5 := TakeStamped(pairStatus, other.pairStatus);
      wifiStore, d6 := TakeStamped(wifiStore, other.wifiStore);
      diff := before.(systemVersion := d1, volume := d2, brightness := d3, lightMode := d4, pairStatus := d5,
                      wifiStore := d6);
    }

    /** The fields that are replaced when the incoming value differs. */
    method MergeReplaced(other: StatsEvent, before: StatsChanges) returns (diff: StatsChanges)
      modifies this`battery, this`cellular, this`wifiNetwork, this`readNFCTag, this`shaking
      ensures battery == Replaced(old(battery), other.battery, old(battery) == other.battery)
      ensures cellular == Replaced(old(cellular), other.cellular, old(cellular) == other.cellular)
      ensures wifiNetwork == Replaced(old(wifiNetwork), other.wifiNetwork, old(wifiNetwork) == other.wifiNetwork)
      ensures readNFCTag
        == Replaced(old(readNFCTag), other.readNFCTag, SameTags(other.readNFCTag, old(readNFCTag)))
      ensures shaking == Replaced(old(shaking), other.shaking, old(shaking) == other.shaking)
      ensures diff == before.(
        battery := ReplacedDiff(other.battery, old(battery) == other.battery),
        cellular := ReplacedDiff(other.cellular, old(cellular) == other.cellular),
        wifiNetwork := ReplacedDiff(other.wifiNetwork, old(wifiNetwork) == other.wifiNetwork),
        readNFCTag := ReplacedDiff(other.readNFCTag, SameTags(other.readNFCTag, old(readNFCTag))),
        shaking := ReplacedDiff(other.shaking, old(shaking) == other.shaking))
    {
      var d1, d2, d3, d4, d5;
      battery, d1 := TakeOther(battery, other.battery, battery == other.battery);
      var same := CellularEqual(cellular, other.cellular);
      cellular, d2 := TakeOther(cellular, other.cellular, same);
      same := WifiEqual(wifiNetwork, other.wifiNetwork);
      wifiNetwork, d3 := TakeOther(wifiNetwork, other.wifiNetwork, same);
      same := NFCTagEqual(other.readNFCTag, readNFCTag);
      readNFCTag, d4 := TakeOther(readNFCTag, other.readNFCTag, same);
      shaking, d5 := TakeOther(shaking, other.shaking, shaking == other.shaking);
      diff := before.(battery := d1, cellular := d2, wifiNetwork := d3, readNFCTag := d4, shaking := d5);
    }
  }

  // ---- The server port ----

  /** The server's stats after handling event e; the first event is taken as it is. */
  function Handled(stats: Option<StatsEvent>, e: StatsEvent): StatsEvent {
    if stats.None? then e else Merged(stats.value, e)
  }

  function Reported(stats: Option<StatsEvent>, e: StatsEvent): Option<StatsChanges> {
    if stats.None? then None else Diff(stats.value, e)
  }

  class ServerPort {
    var stats: StatsRecord?

    function View(): Option<StatsEvent>
      reads this, stats
    {
      if stats == null then None else Some(stats.View())
    }

    constructor ()
      ensures View() == None
    {
      stats := null;
    }

    method HandleStatsEvent(e: StatsEvent) returns (changes: Option<StatsChanges>)
      modifies this, stats
      ensures View() == Some(Handled(old(View()), e))
      ensures changes == Reported(old(View()), e)
      ensures old(stats) != null ==> stats == old(stats)
    {
      changes := None;
      if stats != null {
        changes := stats.MergeWith(e);
      } else {
        stats := new StatsRecord.Clone(e);
      }
    }
  }
}
