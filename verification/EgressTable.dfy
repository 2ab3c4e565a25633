/** The session table of one SOCKS5 UDP association (internal/amneziawgnet/egress.go): getOrDial looks up,
    dials, publishes and starts the pump inside one critical section; a pump deletes by key alone. Datagrams addressed
    to a name are delivered by goroutines of their own, which may still be resolving when the association ends. */
module EgressTable {

  type Addr = nat
  type Sid = nat
  type Did = nat

  datatype Pump = Reading(dst: Addr) | Retired(dst: Addr)

  /** A datagram that was read and not delivered yet. */
  datatype Delivery = Direct(dst: Addr) | Named

  datatype State = State(
    m: map<Addr, Sid>, open: set<Sid>, next: Sid, pumps: map<Sid, Pump>, deliveries: map<Did, Delivery>,
    tornDown: bool, socketClosed: bool)

  const START := State(map[], {}, 0, map[], map[], false, false)

  /** Deliver calls getOrDial, with the dial's outcome; Retire and ClosePump are the two halves of a pump's exit. */
  datatype Step =
    | Receive(k: Did, delivery: Delivery)
    | Unresolved(k: Did)
    | Deliver(k: Did, dst: Addr, dialed: bool)
    | Retire(sid: Sid)
    | ClosePump(sid: Sid)
    | CloseAll
    | CloseSocket

  predicate Enabled(s: State, step: Step) {
    match step
    case Receive(k, _) => k !in s.deliveries && !s.socketClosed
    case Unresolved(k) => k in s.deliveries && s.deliveries[k].Named?
    case Deliver(k, dst, _) => k in s.deliveries && (s.deliveries[k].Direct? ==> s.deliveries[k].dst == dst)
    case Retire(sid) => sid in s.pumps && s.pumps[sid].Reading?
    case ClosePump(sid) => sid in s.pumps && s.pumps[sid].Retired?
    case CloseAll => true
    case CloseSocket => s.tornDown
  }

  function Apply(s: State, step: Step): State
    requires Enabled(s, step)
  {
    match step
    case Receive(k, delivery) => s.(deliveries := s.deliveries[k := delivery])
    case Unresolved(k) => s.(deliveries := s.deliveries - {k})
    case Deliver(k, dst, dialed) =>
      var t := s.(deliveries := s.deliveries - {k});
      if dst in s.m || !dialed then t
      else t.(m := s.m[dst := s.next], open := s.open + {s.next}, next := s.next + 1,
              pumps := s.pumps[s.next := Reading(dst)])
    case Retire(sid) => s.(m := s.m - {s.pumps[sid].dst}, pumps := s.pumps[sid := Retired(s.pumps[sid].dst)])
    case ClosePump(sid) => s.(pumps := s.pumps - {sid}, open := s.open - {sid})
    case CloseAll => s.(open := s.open - s.m.Values, tornDown := true)
    case CloseSocket => s.(socketClosed := true)
  }

  ghost predicate Runs(s: State, steps: seq<Step>)
    decreases |steps|
  {
    steps == [] || (Enabled(s, steps[0]) && Runs(Apply(s, steps[0]), steps[1..]))
  }

  ghost function Run(s: State, steps: seq<Step>): State
    requires Runs(s, steps)
    decreases |steps|
  {
    if steps == [] then s else Run(Apply(s, steps[0]), steps[1..])
  }

  /** The table and the reading pumps are the same thing seen twice. */
  ghost predicate Inv(s: State) {
    && (forall sid <- s.pumps :: sid < s.next)
    && (forall sid <- s.open :: sid in s.pumps)
    && (forall dst <- s.m :: s.m[dst] in s.pumps && s.pumps[s.m[dst]] == Reading(dst))
    && (forall sid <- s.pumps :: s.pumps[sid].Reading? ==> s.pumps[sid].dst in s.m && s.m[s.pumps[sid].dst] == sid)
    && (!s.tornDown ==> forall dst <- s.m :: s.m[dst] in s.open)
  }

  lemma StepKeepsInv(s: State, step: Step)
    requires Inv(s) && Enabled(s, step)
    ensures Inv(Apply(s, step))
  {
  }

  lemma {:induction false} RunKeepsInv(s: State, steps: seq<Step>)
    requires Inv(s) && Runs(s, steps)
    ensures Inv(Run(s, steps))
    decreases |steps|
  {
    if steps != [] {
      StepKeepsInv(s, steps[0]);
      RunKeepsInv(Apply(s, steps[0]), steps[1..]);
    }
  }

  /** Deleting by key removes exactly the pump's own session, in every reachable state. */
  lemma RetireRemovesOwn(steps: seq<Step>, sid: Sid)
    requires Runs(START, steps) && Enabled(Run(START, steps), Retire(sid))
    ensures var s := Run(START, steps); var t := Apply(s, Retire(sid));
            && sid in s.m.Values
            && (forall dst: Addr :: dst in t.m <==> dst in s.m && s.m[dst] != sid)
            && (forall dst <- t.m :: t.m[dst] == s.m[dst])
  {
    RunKeepsInv(START, steps);
    var s := Run(START, steps);
    var own := s.pumps[sid].dst;
    assert own in s.m && s.m[own] == sid;
    forall dst: Addr | dst in s.m && s.m[dst] == sid ensures dst == own {
      assert s.pumps[s.m[dst]] == Reading(dst);
    }
  }

  /** Every open session has its pump; before the control connection closes, every published session is open. */
  lemma NoLeak(steps: seq<Step>)
    requires Runs(START, steps)
    ensures var s := Run(START, steps);
            && (forall sid <- s.open :: sid in s.pumps)
            && (s.pumps == map[] ==> s.open == {} && s.m == map[])
            && (CloseAll !in steps ==> forall dst <- s.m :: s.m[dst] in s.open)
  {
    RunKeepsInv(START, steps);
    var s := Run(START, steps);
    if CloseAll !in steps {
      NotTornDown(START, steps);
    }
    assert forall dst <- s.m :: s.m[dst] in s.pumps;
  }

  /** Closing the association closes every session whose pump has not already taken it out of the table. */
  lemma CloseAllCloses(steps: seq<Step>)
    requires Runs(START, steps)
    ensures var s := Run(START, steps); var t := Apply(s, CloseAll);
            && (forall dst <- s.m :: s.m[dst] !in t.open)
            && (forall sid <- t.open :: sid in s.pumps && s.pumps[sid].Retired?)
  {
    RunKeepsInv(START, steps);
    var s := Run(START, steps);
    forall sid | sid in s.open && s.pumps[sid].Reading? ensures sid in s.m.Values {
      assert s.pumps[sid].dst in s.m && s.m[s.pumps[sid].dst] == sid;
    }
    assert forall dst <- s.m :: s.m[dst] in s.m.Values;
  }

  lemma {:induction false} NotTornDown(s: State, steps: seq<Step>)
    requires Runs(s, steps) && CloseAll !in steps && !s.tornDown
    ensures !Run(s, steps).tornDown
    decreases |steps|
  {
    if steps != [] {
      assert steps[0] in steps;
      NotTornDown(Apply(s, steps[0]), steps[1..]);
    }
  }

  // ---------------------------------------------------------------- after the control connection closes

  predicate NoReceive(steps: seq<Step>) { forall step <- steps :: !step.Receive? }

  /** Some continuation that reads no further datagram opens a session that was not there. */
  ghost predicate CanReopen(s: State) {
    exists steps, sid: Sid :: Runs(s, steps) && NoReceive(steps) && sid in Run(s, steps).open && sid >= s.next
  }

  lemma {:induction false} NothingToDeliver(s: State, steps: seq<Step>)
    requires Runs(s, steps) && NoReceive(steps) && s.deliveries == map[]
    ensures Run(s, steps).next == s.next
    decreases |steps|
  {
    if steps != [] {
      assert steps[0] in steps;
      NothingToDeliver(Apply(s, steps[0]), steps[1..]);
    }
  }

  /** A delivery to a destination with no session opens one. */
  lemma DeliveryOpens(s: State, k: Did, dst: Addr)
    requires Enabled(s, Deliver(k, dst, true)) && dst !in s.m
    ensures CanReopen(s)
  {
    var steps := [Deliver(k, dst, true)];
    assert steps[1..] == [];
    assert Run(s, steps) == Apply(s, steps[0]);
    assert s.next in Run(s, steps).open;
  }

  lemma OneStep(s: State, step: Step)
    requires Enabled(s, step)
    ensures Runs(s, [step]) && Run(s, [step]) == Apply(s, step)
  {
    assert [step][1..] == [];
    assert Run(Apply(s, step), []) == Apply(s, step);
  }

  /** A session in the way was closed, so its pump retires and clears the key first. */
  lemma RetirementClears(s: State, k: Did, dst: Addr)
    requires Inv(s) && Enabled(s, Deliver(k, dst, true)) && dst in s.m
    ensures CanReopen(s)
  {
    var sid := s.m[dst];
    assert s.pumps[sid] == Reading(dst);
    var t := Apply(s, Retire(sid));
    var steps := [Retire(sid), Deliver(k, dst, true)];
    assert steps[1..] == [Deliver(k, dst, true)] && steps[1..][1..] == [];
    assert Enabled(t, Deliver(k, dst, true)) && dst !in t.m && t.next == s.next;
    OneStep(t, Deliver(k, dst, true));
    assert Runs(s, steps) && Run(s, steps) == Run(t, steps[1..]);
    assert s.next in Run(s, steps).open;
  }

  /** After teardown a session can still be opened without reading a further datagram exactly when some datagram is
      still being delivered: a name is being resolved, or the reader has one in hand. */
  lemma CloseAllIsFinalIff(steps: seq<Step>)
    requires Runs(START, steps)
    ensures var s := Apply(Run(START, steps), CloseAll); CanReopen(s) <==> s.deliveries != map[]
  {
    RunKeepsInv(START, steps);
    var s := Apply(Run(START, steps), CloseAll);
    StepKeepsInv(Run(START, steps), CloseAll);
    if s.deliveries != map[] {
      var k: Did :| k in s.deliveries;
      var dst: Addr := if s.deliveries[k].Direct? then s.deliveries[k].dst else 0;
      if dst in s.m {
        RetirementClears(s, k, dst);
      } else {
        DeliveryOpens(s, k, dst);
      }
    } else if CanReopen(s) {
      var more, sid: Sid :| Runs(s, more) && NoReceive(more) && sid in Run(s, more).open && sid >= s.next;
      NothingToDeliver(s, more);
      RunKeepsInv(s, more);
    }
  }

  /** And it happens: a name is still being resolved when the control connection closes. */
  lemma ResolvedTooLate(k: Did)
    ensures Runs(START, [Receive(k, Named)]) && CanReopen(Apply(Run(START, [Receive(k, Named)]), CloseAll))
  {
    var steps := [Receive(k, Named)];
    assert steps[1..] == [];
    assert Run(START, steps) == Apply(START, steps[0]);
    CloseAllIsFinalIff(steps);
    assert k in Apply(Run(START, steps), CloseAll).deliveries;
  }
}
