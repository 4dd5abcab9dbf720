/** Every run of the listener: message handlers, releases, accepting, and shutdown, all
    interleaved. */
module ListenerRuns {
  import opened Common
  import opened Listener
  import opened Runs

  /** The shutdown goroutine: before it took the ports, closing them, after closing the
      accept channel. */
  datatype Sweep = NotStarted | Closing(todo: set<Port>) | Finished

  /** created ports so far; taken: out of the table, about to be closed by a releaser;
      done: closed; announced: every port put into the accept channel, in order;
      accepted: those received from it. */
  datatype System = System(
    t: Table, created: nat, taken: set<Port>, sweep: Sweep, done: set<Port>, cancelled: bool,
    announced: seq<Port>, accepted: seq<Port>, crashed: bool)

  const START := System(NEW_TABLE, 0, {}, NotStarted, {}, false, [], [], false)

  function Handle(s: System, gear: string): System {
    var (t, r) := GetOrCreate(s.t, gear, s.created);
    match r
    case Created(p) =>
      s.(t := t, created := s.created + 1,
         announced := if |s.t.acceptCh| < ACCEPT_CAPACITY then s.announced + [p] else s.announced)
    case Crash => s.(crashed := true)
    case _ => s
  }

  function ReleaseTake(s: System, gear: string): System {
    var (t, r) := Take(s.t, gear);
    s.(t := t, taken := if r.Some? then s.taken + {r.value} else s.taken)
  }

  ghost predicate Internal(s: System, s': System) {
    || (exists p :: p in s.taken && s' == s.(taken := s.taken - {p}, done := s.done + {p}))
    || s' == s.(t := s.t.(closed := true))
    || (s.t.closed && s' == s.(cancelled := true))
    || (s.t.acceptCh != []
        && s' == s.(t := s.t.(acceptCh := s.t.acceptCh[1..]), accepted := s.accepted + [s.t.acceptCh[0]]))
  }

  /** The shutdown goroutine: take all ports, close them one by one, close the channel. */
  ghost predicate Sweeps(s: System, s': System) {
    || (s.cancelled && s.sweep.NotStarted?
        && s' == s.(t := TakeAll(s.t).0, sweep := Closing(TakeAll(s.t).1)))
    || (s.sweep.Closing?
        && (exists p :: p in s.sweep.todo && s' == s.(sweep := Closing(s.sweep.todo - {p}), done := s.done + {p})))
    || (s.sweep == Closing({})
        && s' == s.(sweep := Finished, t := s.t.(acceptClosed := true), crashed := s.crashed || s.t.acceptClosed))
  }

  /** parent: the context the listener was started with may be cancelled too. */
  ghost predicate Step(parent: bool, s: System, s': System) {
    || (exists gear :: s' == Handle(s, gear))
    || (exists gear :: s' == ReleaseTake(s, gear))
    || Internal(s, s')
    || Sweeps(s, s')
    || (parent && s' == s.(cancelled := true))
  }

  ghost function StepFn(parent: bool): (System, System) -> bool { (s, s') => Step(parent, s, s') }

  ghost predicate Reachable(parent: bool, s: System) { Leads(StepFn(parent), START, s) }

  function Mapped(s: System): set<Port> { if s.t.ports.Some? then s.t.ports.value.Values else {} }

  function Todo(s: System): set<Port> { if s.sweep.Closing? then s.sweep.todo else {} }

  /** Every port ever created is in exactly one place. */
  ghost predicate Partition(s: System) {
    && (forall p: Port :: p < s.created <==> p in Mapped(s) || p in s.taken || p in Todo(s) || p in s.done)
    && Mapped(s) !! s.taken && Mapped(s) !! Todo(s) && Mapped(s) !! s.done
    && s.taken !! Todo(s) && s.taken !! s.done && Todo(s) !! s.done
  }

  /** No port is in the table under two gears. */
  ghost predicate OneGear(s: System) {
    s.t.ports.Some? ==> Injective(s.t.ports.value)
  }

  ghost predicate Announcements(s: System) {
    && s.announced == s.accepted + s.t.acceptCh && |s.t.acceptCh| <= ACCEPT_CAPACITY
    && (forall i :: 0 <= i < |s.announced| ==> s.announced[i] < s.created)
    && forall i, j :: 0 <= i < j < |s.announced| ==> s.announced[i] < s.announced[j]
  }

  /** How far shutdown has come, when it starts from Close. */
  ghost predicate Shutdown(s: System) {
    && !s.crashed
    && (s.cancelled ==> s.t.closed)
    && (!s.sweep.NotStarted? ==> s.cancelled)
    && (s.t.ports.None? <==> !s.sweep.NotStarted?)
    && (s.t.acceptClosed <==> s.sweep.Finished?)
  }

  ghost predicate Inv(s: System) { Partition(s) && OneGear(s) && Announcements(s) && Shutdown(s) }

  lemma HandleKeeps(s: System, gear: string)
    requires Inv(s)
    ensures Inv(Handle(s, gear))
  {
    var s' := Handle(s, gear);
    if GetOrCreate(s.t, gear, s.created).1.Created? {
      var m, m' := s.t.ports.value, s'.t.ports.value;
      assert Mapped(s') == Mapped(s) + {s.created} by {
        assert gear in m' && m'[gear] == s.created;
        forall p | p in Mapped(s) ensures p in Mapped(s') {
          var g :| g in m && m[g] == p;
          assert g in m' && m'[g] == p;
        }
      }
    }
  }

  lemma TakeKeeps(s: System, gear: string)
    requires Inv(s)
    ensures Inv(ReleaseTake(s, gear))
  {
    var s' := ReleaseTake(s, gear);
    if Take(s.t, gear).1.Some? {
      var m, m' := s.t.ports.value, s'.t.ports.value;
      assert Mapped(s') == Mapped(s) - {m[gear]} by {
        forall p | p in Mapped(s) && p != m[gear] ensures p in Mapped(s') {
          var g :| g in m && m[g] == p;
          assert g in m' && m'[g] == p;
        }
      }
    }
  }

  lemma InternalKeeps(s: System, s': System)
    requires Inv(s) && Internal(s, s')
    ensures Inv(s')
  {
  }

  lemma SweepKeeps(s: System, s': System)
    requires Inv(s) && Sweeps(s, s')
    ensures Inv(s')
  {
  }

  lemma StepKeeps(s: System, s': System)
    requires Inv(s) && Step(false, s, s')
    ensures Inv(s')
  {
    if gear :| s' == Handle(s, gear) {
      HandleKeeps(s, gear);
    } else if gear :| s' == ReleaseTake(s, gear) {
      TakeKeeps(s, gear);
    } else if Internal(s, s') {
      InternalKeeps(s, s');
    } else {
      SweepKeeps(s, s');
    }
  }

  lemma ReachableInv(s: System)
    requires Reachable(false, s)
    ensures Inv(s)
  {
    var inv := t => Inv(t);
    forall a, b | inv(a) && StepFn(false)(a, b) ensures inv(b) {
      StepKeeps(a, b);
    }
    Keeps(StepFn(false), inv, START, s);
  }

  /** Conservation over every run in which cancellation comes from Close: each port is in
      exactly one place and under one gear, announcements arrive in creation order, and
      once shutdown is over every port is closed or in the hands of its releaser. */
  lemma Conservation(s: System)
    requires Reachable(false, s)
    ensures Partition(s) && OneGear(s) && Announcements(s) && !s.crashed
    ensures s.sweep.Finished? ==> forall p: Port :: p < s.created <==> p in s.taken || p in s.done
  {
    ReachableInv(s);
  }

  /** Once the accept channel is closed, no step creates or announces a port. */
  lemma NothingAfterClose(s: System, s': System)
    requires Reachable(false, s) && s.t.acceptClosed && Step(false, s, s')
    ensures s'.created == s.created && s'.announced == s.announced && s'.t.acceptClosed && !s'.crashed
  {
    ReachableInv(s);
    StepKeeps(s, s');
  }

  /** Exactly when no run writes to the nil map or to the closed channel: when the parent
      context is never cancelled. Otherwise a message that arrives between the sweep and
      Close finds no map. */
  lemma NeverCrashesIff(parent: bool)
    ensures (forall s :: Reachable(parent, s) ==> !s.crashed) <==> !parent
  {
    if parent {
      var s1 := START.(cancelled := true);
      var s2 := s1.(t := TakeAll(s1.t).0, sweep := Closing(TakeAll(s1.t).1));
      var s3 := Handle(s2, "gear");
      Stay(StepFn(parent), START);
      assert Step(parent, START, s1) && Sweeps(s1, s2) && Step(parent, s1, s2) && Step(parent, s2, s3);
      Extend(StepFn(parent), START, START, s1);
      Extend(StepFn(parent), START, s1, s2);
      Extend(StepFn(parent), START, s2, s3);
      assert s3.crashed;
    } else {
      forall s | Reachable(parent, s) ensures !s.crashed {
        Conservation(s);
      }
    }
  }
}
