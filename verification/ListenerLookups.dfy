/** Which port a device's messages go to: what lookups answer, and that they keep
    answering it until the device is released. */
module ListenerLookups {
  import opened Common
  import opened Listener
  import opened ListenerRuns
  import opened Runs

  ghost predicate MapsTo(s: System, gear: string, p: Port) {
    s.t.ports.Some? && gear in s.t.ports.value && s.t.ports.value[gear] == p
  }

  /** What a lookup answers, in every reachable state: nothing once the listener is
      closed; the port mapped under the gear, which was created before and is not being
      closed; or, exactly when there is none, the next new port. */
  lemma LookupIff(s: System, gear: string)
    requires Reachable(false, s)
    ensures var (t', r) := GetOrCreate(s.t, gear, s.created);
      && (r.Refused? <==> s.t.closed)
      && (r.Existing? ==> MapsTo(s, gear, r.port) && r.port < s.created && t' == s.t)
      && (r.Existing? ==> r.port !in s.taken && r.port !in Todo(s) && r.port !in s.done)
      && (r.Existing? <==> !s.t.closed && exists p :: MapsTo(s, gear, p))
      && (r.Created? <==> !s.t.closed && !exists p :: MapsTo(s, gear, p))
      && (r.Created? ==> r.port == s.created && r.port !in Mapped(s))
      && !r.Crash?
  {
    ReachableInv(s);
    var r := GetOrCreate(s.t, gear, s.created).1;
    if s.t.ports.Some? && gear in s.t.ports.value {
      assert MapsTo(s, gear, s.t.ports.value[gear]) && s.t.ports.value[gear] in Mapped(s);
    }
  }

  /** What a message does to the table: after one that was not refused its gear is mapped
      to the answer, and every other gear to what it was mapped to before. */
  lemma HandleMaps(s: System, gear: string, other: string, p: Port)
    requires Reachable(false, s)
    ensures var (r, s') := (GetOrCreate(s.t, gear, s.created).1, Handle(s, gear));
      && (r.Existing? || r.Created? ==> MapsTo(s', gear, r.port))
      && (other != gear ==> (MapsTo(s', other, p) <==> MapsTo(s, other, p)))
      && s'.created == s.created + (if r.Created? then 1 else 0)
  {
    ReachableInv(s);
  }

  /** A new port is announced to Accept iff the channel has room; nothing else is. */
  lemma Announced(s: System, gear: string)
    requires Reachable(false, s)
    ensures var (r, s') := (GetOrCreate(s.t, gear, s.created).1, Handle(s, gear));
      if r.Created? && |s.t.acceptCh| < ACCEPT_CAPACITY then s'.announced == s.announced + [s.created]
      else s'.announced == s.announced
  {
    ReachableInv(s);
  }

  /** Steps other than releasing the gear and sweeping all ports. */
  ghost predicate Quiet(gear: string, s: System, s': System) {
    || (exists g :: s' == Handle(s, g))
    || (exists g :: g != gear && s' == ReleaseTake(s, g))
    || Internal(s, s')
    || (!s.sweep.NotStarted? && Sweeps(s, s'))
  }

  ghost function QuietFn(gear: string): (System, System) -> bool { (s, s') => Quiet(gear, s, s') }

  lemma QuietKeeps(gear: string, p: Port, s: System, s': System)
    requires Inv(s) && MapsTo(s, gear, p) && Quiet(gear, s, s')
    ensures Inv(s') && MapsTo(s', gear, p)
  {
    assert Step(false, s, s');
    StepKeeps(s, s');
  }

  /** Two lookups of a gear with any run between them that neither releases it nor sweeps:
      the second answers the port the first created or found, unless the listener was
      closed in between. */
  lemma LookupsAgree(s: System, gear: string, later: System)
    requires Reachable(false, s) && Leads(QuietFn(gear), Handle(s, gear), later)
    ensures var r := GetOrCreate(s.t, gear, s.created).1;
      r.Existing? || r.Created? ==>
        GetOrCreate(later.t, gear, later.created).1 == if later.t.closed then Refused else Existing(r.port)
  {
    var r := GetOrCreate(s.t, gear, s.created).1;
    if r.Existing? || r.Created? {
      ReachableInv(s);
      HandleKeeps(s, gear);
      HandleMaps(s, gear, gear, r.port);
      var inv := t => Inv(t) && MapsTo(t, gear, r.port);
      forall a, b | inv(a) && QuietFn(gear)(a, b) ensures inv(b) {
        QuietKeeps(gear, r.port, a, b);
      }
      Keeps(QuietFn(gear), inv, Handle(s, gear), later);
    }
  }

  /** A release takes exactly the gear's port out of the table, and the next message of
      the gear gets a new one. */
  lemma ReleaseIff(s: System, gear: string, other: string, p: Port)
    requires Reachable(false, s)
    ensures var (r, s') := (Take(s.t, gear).1, ReleaseTake(s, gear));
      && (r == Some(p) <==> MapsTo(s, gear, p))
      && !MapsTo(s', gear, p)
      && (other != gear ==> (MapsTo(s', other, p) <==> MapsTo(s, other, p)))
      && s'.taken == s.taken + (if r.Some? then {r.value} else {})
      && (r == Some(p) ==> p !in s.taken && p !in Mapped(s'))
      && (!s.t.closed ==> GetOrCreate(s'.t, gear, s'.created).1 == Created(s.created))
  {
    ReachableInv(s);
    TakeKeeps(s, gear);
  }

  /** Closing hands over every mapped port, and no lookup finds one afterwards. */
  lemma SweepTakesAll(s: System, gear: string, p: Port)
    requires Reachable(false, s) && s.cancelled && s.sweep.NotStarted?
    ensures var (t', all) := TakeAll(s.t);
      && (p in all <==> exists g :: MapsTo(s, g, p))
      && GetOrCreate(t', gear, s.created).1 == Refused
  {
    ReachableInv(s);
    if p in Mapped(s) {
      var g :| g in s.t.ports.value && s.t.ports.value[g] == p;
      assert MapsTo(s, g, p);
    }
  }
}
