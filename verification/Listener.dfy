/** The listener's table of device ports: creation on first contact, release, shutdown.
    One section is what happens under one hold of the listener's lock. */
module Listener {
  import opened Common

  /** Ports are numbered in the order of their creation. */
  type Port = nat

  const ACCEPT_CAPACITY := 32

  /** ports is None once `closeAll` has set the map to nil. */
  datatype Table = Table(ports: Option<map<string, Port>>, closed: bool, acceptCh: seq<Port>, acceptClosed: bool)

  const NEW_TABLE := Table(Some(map[]), false, [], false)

  /** Crash: a write to the nil map, or a send on or second close of the closed channel. */
  datatype Lookup = Refused | Existing(port: Port) | Created(port: Port) | Crash

  /** `getOrCreatePort`; next is the port it creates if it has to. A full accept channel
      drops the announcement, not the port. */
  function GetOrCreate(t: Table, gear: string, next: Port): (Table, Lookup) {
    if t.closed then (t, Refused)
    else if t.ports.Some? && gear in t.ports.value then (t, Existing(t.ports.value[gear]))
    else if t.ports.None? || t.acceptClosed then (t, Crash)
    else (t.(ports := Some(t.ports.value[gear := next]),
             acceptCh := if |t.acceptCh| < ACCEPT_CAPACITY then t.acceptCh + [next] else t.acceptCh),
          Created(next))
  }

  /** The locked half of `releasePort`: the port taken out for closing, if there is one. */
  function Take(t: Table, gear: string): (Table, Option<Port>) {
    if t.ports.Some? && gear in t.ports.value
    then (t.(ports := Some(t.ports.value - {gear})), Some(t.ports.value[gear]))
    else (t, None)
  }

  /** The locked half of `closeAll`: every port left, and no map afterwards. */
  function TakeAll(t: Table): (Table, set<Port>) {
    (t.(ports := None), if t.ports.Some? then t.ports.value.Values else {})
  }

  /** No port is mapped under two gears. */
  ghost predicate Injective(m: map<string, Port>) {
    forall g, h :: g in m && h in m && m[g] == m[h] ==> g == h
  }

  class ListenerTable {
    var ports: Option<map<string, Port>>
    var closed: bool
    var acceptCh: seq<Port>
    var acceptClosed: bool

    function View(): Table
      reads this
    {
      Table(ports, closed, acceptCh, acceptClosed)
    }

    constructor ()
      ensures View() == NEW_TABLE
    {
      ports, closed, acceptCh, acceptClosed := Some(map[]), false, [], false;
    }

    method GetOrCreatePort(gear: string, next: Port) returns (r: Lookup)
      modifies this
      ensures r != Crash ==> (View(), r) == GetOrCreate(old(View()), gear, next)
      ensures r == Crash <==> GetOrCreate(old(View()), gear, next).1 == Crash
    {
      if closed {
        return Refused;
      }
      if ports.Some? && gear in ports.value {
        return Existing(ports.value[gear]);
      }
      if ports.None? {
        return Crash;
      }
      ports := Some(ports.value[gear := next]);
      if acceptClosed {
        return Crash;
      }
      if |acceptCh| < ACCEPT_CAPACITY {
        acceptCh := acceptCh + [next];
      }
      return Created(next);
    }

    method TakePort(gear: string) returns (r: Option<Port>)
      modifies this`ports
      ensures (View(), r) == Take(old(View()), gear)
    {
      if ports.None? || gear !in ports.value {
        return None;
      }
      r := Some(ports.value[gear]);
      ports := Some(map g | g in ports.value && g != gear :: ports.value[g]);
      assert ports.value == old(ports.value) - {gear};
    }

    /** Collects the ports one by one, in whatever order the map yields them. */
    method TakeAllPorts() returns (r: seq<Port>)
      modifies this`ports
      ensures View() == TakeAll(old(View())).0
      ensures (set p | p in r) == TakeAll(old(View())).1
      ensures |r| == if old(ports).Some? then |old(ports).value| else 0
      ensures old(ports).Some? && Injective(old(ports).value) ==> forall i, j :: 0 <= i < j < |r| ==> r[i] != r[j]
    {
      r := [];
      if ports.Some? {
        var m, rest := ports.value, ports.value.Keys;
        while rest != {}
          invariant rest <= m.Keys
          invariant forall p :: p in r <==> exists g :: g in m.Keys - rest && m[g] == p
          invariant |r| + |rest| == |m.Keys|
          invariant Injective(m) ==> forall i, j :: 0 <= i < j < |r| ==> r[i] != r[j]
        {
          var g :| g in rest;
          assert Injective(m) ==> m[g] !in r;
          r := r + [m[g]];
          rest := rest - {g};
        }
      }
      ports := None;
    }

    /** The locked half of Close; true when the caller has to cancel. */
    method MarkClosed() returns (cancel: bool)
      modifies this`closed
      ensures View() == old(View()).(closed := true) && cancel == !old(closed)
    {
      if closed {
        return false;
      }
      closed := true;
      return true;
    }
  }
}
