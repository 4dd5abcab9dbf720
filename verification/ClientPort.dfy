/** The device side of the statistics protocol: full statistics, a pending diff, batch
    mode, and the queue of events to upload. */
module ClientPort {
  import opened Common
  import opened Stats

  /** What the device program and the report timer call. */
  datatype Op =
    | SetVolume(volume: int)
    | SetBrightness(brightness: int)
    | SetLightMode(mode: string)
    | SetBattery(pct: int, isCharging: bool)
    | SetWifiNetwork(wifi: Option<Wifi>)
    | SetWifiStore(list: Option<seq<WifiStoreItem>>)
    | SetSystemVersion(version: string)
    | SetCellular(cellular: Option<Cellular>)
    | SetPairStatus(pairWith: string)
    | SetReadNFCTag(tags: Option<seq<NFCTag>>)
    | SetShaking(level: real)
    | BeginBatch
    | EndBatch
    | Periodic(rounds: nat)

  /** stats: everything the device knows. pending: fields waiting to be sent. */
  datatype Client = Client(stats: StatsEvent, pending: Option<StatsEvent>, batchMode: bool, uplink: seq<StatsEvent>)

  const NEW_CLIENT := Client(NO_STATS, None, false, [])

  const NO_BATTERY := Battery(0.0, 0.0, false, 0.0, 0.0, 0.0, 0.0)
  const NO_VERSION := VersionInfo("", 0.0, "", [])
  const NO_WIFI := Wifi("", [], "", "", "", "", 0.0, "", "", None)

  /** The part of the wifi network that periodic reports repeat. */
  function Summary(w: Wifi): Wifi {
    NO_WIFI.(ssid := w.ssid, rssi := w.rssi, ip := w.ip, gateway := w.gateway)
  }

  /** The storage layer after a setter, called at time now. */
  function Stored(s: StatsEvent, op: Op, now: Milli): StatsEvent {
    match op
    case SetVolume(v) => s.(volume := Some(Stamped(v as real, now)))
    case SetBrightness(b) => s.(brightness := Some(Stamped(b as real, now)))
    case SetLightMode(m) => s.(lightMode := Some(Stamped(m, now)))
    case SetBattery(pct, ch) =>
      s.(battery := Some(s.battery.GetOr(NO_BATTERY).(percentage := pct as real, isCharging := ch)))
    case SetWifiNetwork(w) => s.(wifiNetwork := w)
    case SetWifiStore(l) => s.(wifiStore := if l.None? then None else Some(Stamped(l.value, now)))
    case SetSystemVersion(v) =>
      var sv := s.systemVersion.GetOr(Stamped(NO_VERSION, ZERO_TIME));
      s.(systemVersion := Some(sv.(value := sv.value.(currentVersion := v))))
    case SetCellular(c) => s.(cellular := c)
    case SetPairStatus(p) => s.(pairStatus := Some(Stamped(p, now)))
    case SetReadNFCTag(t) => s.(readNFCTag := t)
    case SetShaking(l) => s.(shaking := Some(Shaking(l)))
    case _ => s
  }

  /** The pending diff e with the field of a setter added. */
  function Queued(e: StatsEvent, op: Op, now: Milli): StatsEvent {
    match op
    case SetVolume(v) => e.(volume := Some(Stamped(v as real, now)))
    case SetBrightness(b) => e.(brightness := Some(Stamped(b as real, now)))
    case SetLightMode(m) => e.(lightMode := Some(Stamped(m, now)))
    case SetBattery(pct, ch) => e.(battery := Some(NO_BATTERY.(percentage := pct as real, isCharging := ch)))
    case SetWifiNetwork(w) => e.(wifiNetwork := w)
    case SetWifiStore(l) => e.(wifiStore := if l.None? then None else Some(Stamped(l.value, now)))
    case SetSystemVersion(v) => e.(systemVersion := Some(Stamped(NO_VERSION.(currentVersion := v), ZERO_TIME)))
    case SetCellular(c) => e.(cellular := c)
    case SetPairStatus(p) => e.(pairStatus := Some(Stamped(p, now)))
    case SetReadNFCTag(t) => e.(readNFCTag := t)
    case SetShaking(l) => e.(shaking := Some(Shaking(l)))
    case _ => e
  }

  function Restamped<V>(cur: Option<Stamped<V>>, pending: Option<Stamped<V>>, now: Milli): Option<Stamped<V>> {
    if cur.None? then pending else Some(cur.value.(updateAt := now))
  }

  /** The pending diff e with the fields of a round's report added. Reports carry the
      report time as their stamp; the stored stamps stay. */
  function Report(e: StatsEvent, s: StatsEvent, rounds: nat, now: Milli): StatsEvent {
    if rounds % 3 == 0 then
      e.(battery := if s.battery.None? then e.battery
                    else Some(NO_BATTERY.(percentage := s.battery.value.percentage,
                                          isCharging := s.battery.value.isCharging)),
         volume := Restamped(s.volume, e.volume, now),
         brightness := Restamped(s.brightness, e.brightness, now),
         lightMode := Restamped(s.lightMode, e.lightMode, now),
         systemVersion := if s.systemVersion.None? then e.systemVersion
           else Some(Stamped(NO_VERSION.(currentVersion := s.systemVersion.value.value.currentVersion), ZERO_TIME)),
         wifiNetwork := if s.wifiNetwork.None? then e.wifiNetwork else Some(Summary(s.wifiNetwork.value)),
         pairStatus := Restamped(s.pairStatus, e.pairStatus, now))
    else if rounds % 6 == 1 then
      e.(shaking := if s.shaking.None? then e.shaking else s.shaking,
         cellular := if s.cellular.None? then e.cellular else s.cellular)
    else if rounds % 30 == 2 then
      e.(wifiStore := Restamped(s.wifiStore, e.wifiStore, now))
    else e
  }

  /** Whether a round has anything to report. */
  predicate Reports(s: StatsEvent, rounds: nat) {
    if rounds % 3 == 0 then
      s.battery.Some? || s.volume.Some? || s.brightness.Some? || s.lightMode.Some? || s.systemVersion.Some?
      || s.wifiNetwork.Some? || s.pairStatus.Some?
    else if rounds % 6 == 1 then s.shaking.Some? || s.cellular.Some?
    else if rounds % 30 == 2 then s.wifiStore.Some?
    else false
  }

  /** Sends the pending diff, stamped with the time of sending. */
  function Sent(c: Client, sentAt: Milli): Client {
    if c.pending.None? then c
    else c.(uplink := c.uplink + [c.pending.value.(time := sentAt)], pending := None)
  }

  /** One call: now is the clock it reads first, sentAt the clock it reads when sending. */
  function Apply(c: Client, op: Op, now: Milli, sentAt: Milli): Client {
    match op
    case BeginBatch => c.(batchMode := true)
    case EndBatch =>
      var s := c.stats.(time := sentAt);
      c.(batchMode := false, stats := s, uplink := c.uplink + [s])
    case Periodic(rounds) =>
      var c' := c.(pending := Some(Report(c.pending.GetOr(NO_STATS), c.stats, rounds, now)));
      if Reports(c.stats, rounds) then Sent(c', sentAt) else c'
    case _ =>
      var c' := c.(stats := Stored(c.stats, op, now));
      if c.batchMode then c'
      else Sent(c'.(pending := Some(Queued(c.pending.GetOr(NO_STATS), op, now))), sentAt)
  }

  class ClientPort {
    var stats: StatsEvent
    var statsPending: Option<StatsEvent>
    var batchMode: bool
    var uplinkStats: seq<StatsEvent>

    function View(): Client
      reads this
    {
      Client(stats, statsPending, batchMode, uplinkStats)
    }

    constructor ()
      ensures View() == NEW_CLIENT
    {
      stats, statsPending, batchMode, uplinkStats := NO_STATS, None, false, [];
    }

    method QueueFullStats(sentAt: Milli)
      modifies this`stats, this`uplinkStats
      ensures stats == old(stats).(time := sentAt) && uplinkStats == old(uplinkStats) + [stats]
    {
      stats := stats.(time := sentAt);
      uplinkStats := uplinkStats + [stats];
    }

    method NotifyStatsSend(sentAt: Milli)
      modifies this`statsPending, this`uplinkStats
      ensures View() == Sent(old(View()), sentAt)
    {
      if statsPending.None? {
        return;
      }
      statsPending := Some(statsPending.value.(time := sentAt));
      uplinkStats := uplinkStats + [statsPending.value];
      statsPending := None;
    }

    method EnsurePending()
      modifies this`statsPending
      ensures statsPending == Some(old(statsPending).GetOr(NO_STATS))
    {
      if statsPending.None? {
        statsPending := Some(NO_STATS);
      }
    }

    method BeginBatch()
      modifies this`batchMode
      ensures forall now, sentAt :: View() == Apply(old(View()), Op.BeginBatch, now, sentAt)
    {
      batchMode := true;
    }

    method EndBatch(sentAt: Milli)
      modifies this`batchMode, this`stats, this`uplinkStats
      ensures forall now :: View() == Apply(old(View()), Op.EndBatch, now, sentAt)
    {
      batchMode := false;
      QueueFullStats(sentAt);
    }

    method SetVolume(volume: int, now: Milli, sentAt: Milli)
      modifies this`stats, this`statsPending, this`uplinkStats
      ensures View() == Apply(old(View()), Op.SetVolume(volume), now, sentAt)
    {
      if stats.volume.None? {
        stats := stats.(volume := Some(Stamped(0.0, ZERO_TIME)));
      }
      stats := stats.(volume := Some(stats.volume.value.(value := volume as real, updateAt := now)));
      if batchMode {
        return;
      }
      EnsurePending();
      statsPending := Some(statsPending.value.(volume := Some(Stamped(volume as real, now))));
      NotifyStatsSend(sentAt);
    }

    method SetBrightness(brightness: int, now: Milli, sentAt: Milli)
      modifies this`stats, this`statsPending, this`uplinkStats
      ensures View() == Apply(old(View()), Op.SetBrightness(brightness), now, sentAt)
    {
      if stats.brightness.None? {
        stats := stats.(brightness := Some(Stamped(0.0, ZERO_TIME)));
      }
      stats := stats.(brightness := Some(stats.brightness.value.(value := brightness as real, updateAt := now)));
      if batchMode {
        return;
      }
      EnsurePending();
      statsPending := Some(statsPending.value.(brightness := Some(Stamped(brightness as real, now))));
      NotifyStatsSend(sentAt);
    }

    method SetLightMode(mode: string, now: Milli, sentAt: Milli)
      modifies this`stats, this`statsPending, this`uplinkStats
      ensures View() == Apply(old(View()), Op.SetLightMode(mode), now, sentAt)
    {
      if stats.lightMode.None? {
        stats := stats.(lightMode := Some(Stamped("", ZERO_TIME)));
      }
      stats := stats.(lightMode := Some(stats.lightMode.value.(value := mode, updateAt := now)));
      if batchMode {
        return;
      }
      EnsurePending();
      statsPending := Some(statsPending.value.(lightMode := Some(Stamped(mode, now))));
      NotifyStatsSend(sentAt);
    }

    method SetBattery(pct: int, isCharging: bool, now: Milli, sentAt: Milli)
      modifies this`stats, this`statsPending, this`uplinkStats
      ensures View() == Apply(old(View()), Op.SetBattery(pct, isCharging), now, sentAt)
    {
      if stats.battery.None? {
        stats := stats.(battery := Some(NO_BATTERY));
      }
      stats := stats.(battery := Some(stats.battery.value.(percentage := pct as real, isCharging := isCharging)));
      if batchMode {
        return;
      }
      EnsurePending();
      statsPending := Some(statsPending.value.(battery := Some(NO_BATTERY.(percentage := pct as real, isCharging := isCharging))));
      NotifyStatsSend(sentAt);
    }

    method SetWifiNetwork(wifi: Option<Wifi>, now: Milli, sentAt: Milli)
      modifies this`stats, this`statsPending, this`uplinkStats
      ensures View() == Apply(old(View()), Op.SetWifiNetwork(wifi), now, sentAt)
    {
      stats := stats.(wifiNetwork := wifi);
      if batchMode {
        return;
      }
      EnsurePending();
      statsPending := Some(statsPending.value.(wifiNetwork := wifi));
      NotifyStatsSend(sentAt);
    }

    method SetWifiStore(list: Option<seq<WifiStoreItem>>, now: Milli, sentAt: Milli)
      modifies this`stats, this`statsPending, this`uplinkStats
      ensures View() == Apply(old(View()), Op.SetWifiStore(list), now, sentAt)
    {
      var store := if list.Some? then Some(Stamped(list.value, now)) else None;
      stats := stats.(wifiStore := store);
      if batchMode {
        return;
      }
      EnsurePending();
      statsPending := Some(statsPending.value.(wifiStore := store));
      NotifyStatsSend(sentAt);
    }

    method SetSystemVersion(version: string, now: Milli, sentAt: Milli)
      modifies this`stats, this`statsPending, this`uplinkStats
      ensures View() == Apply(old(View()), Op.SetSystemVersion(version), now, sentAt)
    {
      if stats.systemVersion.None? {
        stats := stats.(systemVersion := Some(Stamped(NO_VERSION, ZERO_TIME)));
      }
      stats := stats.(systemVersion := Some(stats.systemVersion.value.(value := stats.systemVersion.value.value.(currentVersion := version))));
      if batchMode {
        return;
      }
      EnsurePending();
      statsPending := Some(statsPending.value.(systemVersion := Some(Stamped(NO_VERSION.(currentVersion := version), ZERO_TIME))));
      NotifyStatsSend(sentAt);
    }

    method SetCellular(cellular: Option<Cellular>, now: Milli, sentAt: Milli)
      modifies this`stats, this`statsPending, this`uplinkStats
      ensures View() == Apply(old(View()), Op.SetCellular(cellular), now, sentAt)
    {
      stats := stats.(cellular := cellular);
      if batchMode {
        return;
      }
      EnsurePending();
      statsPending := Some(statsPending.value.(cellular := cellular));
      NotifyStatsSend(sentAt);
    }

    method SetPairStatus(pairWith: string, now: Milli, sentAt: Milli)
      modifies this`stats, this`statsPending, this`uplinkStats
      ensures View() == Apply(old(View()), Op.SetPairStatus(pairWith), now, sentAt)
    {
      if stats.pairStatus.None? {
        stats := stats.(pairStatus := Some(Stamped("", ZERO_TIME)));
      }
      stats := stats.(pairStatus := Some(stats.pairStatus.value.(value := pairWith, updateAt := now)));
      if batchMode {
        return;
      }
      EnsurePending();
      statsPending := Some(statsPending.value.(pairStatus := Some(Stamped(pairWith, now))));
      NotifyStatsSend(sentAt);
    }

    method SetReadNFCTag(tags: Option<seq<NFCTag>>, now: Milli, sentAt: Milli)
      modifies this`stats, this`statsPending, this`uplinkStats
      ensures View() == Apply(old(View()), Op.SetReadNFCTag(tags), now, sentAt)
    {
      stats := stats.(readNFCTag := tags);
      if batchMode {
        return;
      }
      EnsurePending();
      statsPending := Some(statsPending.value.(readNFCTag := tags));
      NotifyStatsSend(sentAt);
    }

    method SetShaking(level: real, now: Milli, sentAt: Milli)
      modifies this`stats, this`statsPending, this`uplinkStats
      ensures View() == Apply(old(View()), Op.SetShaking(level), now, sentAt)
    {
      if stats.shaking.None? {
        stats := stats.(shaking := Some(Shaking(0.0)));
      }
      stats := stats.(shaking := Some(Shaking(level)));
      if batchMode {
        return;
      }
      EnsurePending();
      statsPending := Some(statsPending.value.(shaking := Some(Shaking(level))));
      NotifyStatsSend(sentAt);
    }

    method SendPeriodicStats(rounds: nat, now: Milli, sentAt: Milli)
      modifies this`statsPending, this`uplinkStats
      ensures View() == Apply(old(View()), Op.Periodic(rounds), now, sentAt)
    {
      EnsurePending();
      var hasFields := false;
      if rounds % 3 == 0 {
        hasFields := ReportSettings(rounds, now);
      } else if rounds % 3 == 1 {
        if rounds % 6 != 1 {
          return;
        }
        hasFields := ReportMotion(rounds, now);
      } else {
        if rounds % 30 != 2 {
          return;
        }
        if stats.wifiStore.Some? {
          statsPending := Some(statsPending.value.(wifiStore := Some(Stamped(stats.wifiStore.value.value, now))));
          hasFields := true;
        }
      }
      if hasFields {
        NotifyStatsSend(sentAt);
      }
    }

    /** The fields reported every two minutes. */
    method ReportMotion(ghost rounds: nat, ghost now: Milli) returns (hasFields: bool)
      requires statsPending.Some? && rounds % 6 == 1
      modifies this`statsPending
      ensures statsPending == Some(Report(old(statsPending).value, stats, rounds, now))
      ensures hasFields == Reports(stats, rounds)
    {
      var s, p := stats, statsPending.value;
      hasFields := false;
      if s.shaking.Some? {
        p := p.(shaking := Some(Shaking(s.shaking.value.level)));
        hasFields := true;
      }
      if s.cellular.Some? {
        p := p.(cellular := s.cellular);
        hasFields := true;
      }
      statsPending := Some(p);
    }

    /** The fields reported every minute. */
    method ReportSettings(ghost rounds: nat, now: Milli) returns (hasFields: bool)
      requires statsPending.Some? && rounds % 3 == 0
      modifies this`statsPending
      ensures statsPending == Some(Report(old(statsPending).value, stats, rounds, now))
      ensures hasFields == Reports(stats, rounds)
    {
      var s, p := stats, statsPending.value;
      hasFields := false;
      if s.battery.Some? {
        p := p.(battery := Some(NO_BATTERY.(percentage := s.battery.value.percentage,
                                            isCharging := s.battery.value.isCharging)));
        hasFields := true;
      }
      if s.volume.Some? {
        p := p.(volume := Some(Stamped(s.volume.value.value, now)));
        hasFields := true;
      }
      if s.brightness.Some? {
        p := p.(brightness := Some(Stamped(s.brightness.value.value, now)));
        hasFields := true;
      }
      if s.lightMode.Some? {
        p := p.(lightMode := Some(Stamped(s.lightMode.value.value, now)));
        hasFields := true;
      }
      if s.systemVersion.Some? {
        p := p.(systemVersion := Some(Stamped(
          NO_VERSION.(currentVersion := s.systemVersion.value.value.currentVersion), ZERO_TIME)));
        hasFields := true;
      }
      if s.wifiNetwork.Some? {
        var w := s.wifiNetwork.value;
        p := p.(wifiNetwork := Some(NO_WIFI.(ssid := w.ssid, rssi := w.rssi, ip := w.ip, gateway := w.gateway)));
        hasFields := true;
      }
      if s.pairStatus.Some? {
        p := p.(pairStatus := Some(Stamped(s.pairStatus.value.value, now)));
        hasFields := true;
      }
      statsPending := Some(p);
    }
  }
}
