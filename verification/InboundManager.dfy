/** The manager of embedded AmneziaWG inbounds (internal/amneziawgnet/manager.go): it drives live devices toward a
    desired list, choosing between no-op, reconfigure-in-place and rebuild by comparing rendered text. Whether a
    device call succeeds is decided by the environment. */
module InboundManager {
  import opened Text
  import opened Devices

  /** One desired interface: the inbound id, and everything else about it. */
  datatype Desired = Desired(id: int, inst: string)

  datatype Managed = Managed(dev: Dev, desired: Desired, structFP: string, conf: string)

  function Slots(ifaces: map<int, Managed>): map<int, Slot> {
    map id | id in ifaces :: SlotOf(ifaces[id])
  }

  function SlotOf(m: Managed): Slot { Slot(m.dev, m.conf, m.desired.inst) }

  lemma SlotsPut(ifaces: map<int, Managed>, id: int, m: Managed)
    ensures Slots(ifaces[id := m]) == Slots(ifaces)[id := SlotOf(m)]
  {
  }

  function WantedIds(desired: seq<Desired>): set<int> { set d <- desired :: d.id }

  predicate DistinctIds(desired: seq<Desired>) {
    forall i, j :: 0 <= i < j < |desired| ==> desired[i].id != desired[j].id
  }

  /** The refreshes a no-op tick issues: the peer index and the port forwards of every desired interface. */
  function Refreshes(ifaces: map<int, Managed>, desired: seq<Desired>): Trace {
    if desired == [] then []
    else
      var d := desired[|desired| - 1];
      Refreshes(ifaces, desired[..|desired| - 1])
      + (if d.id in ifaces
         then [PeersStored(ifaces[d.id].dev, d.inst)] + [ForwardsReconciled(ifaces[d.id].dev, d.inst)] else [])
  }

  lemma RefreshesNext(ifaces: map<int, Managed>, desired: seq<Desired>, i: nat, base: Trace)
    requires i < |desired| && desired[i].id in ifaces
    ensures var dev, inst := ifaces[desired[i].id].dev, desired[i].inst;
            (base + Refreshes(ifaces, desired[..i + 1])
             == base + Refreshes(ifaces, desired[..i]) + [PeersStored(dev, inst)] + [ForwardsReconciled(dev, inst)])
  {
    assert desired[..i + 1][..i] == desired[..i];
  }

  /** The calls of a configuration that fails, before the device is closed: none if nothing renders. */
  function Tries(conf: Option<string>, dev: Dev, luck: Luck): Trace {
    if conf.None? then []
    else [Set(dev, conf.value, luck.accepted)] + (if luck.accepted then [Up(dev, luck.up)] else [])
  }

  datatype Op =
    | Reconcile(desired: seq<Desired>, lucks: nat -> Luck)
    | Ensure(d: Desired, luck: Luck)
    | Remove(id: int)
    | StopAll

  /** The same devices with the same configuration; only what they were last asked for may differ. */
  ghost predicate Unmoved(a: map<int, Managed>, b: map<int, Managed>) {
    && a.Keys == b.Keys
    && forall id <- a :: a[id].dev == b[id].dev && a[id].structFP == b[id].structFP && a[id].conf == b[id].conf
  }

  /** The first i desired interfaces were refreshed and nothing else happened. */
  ghost predicate Hushed(start: map<int, Managed>, now: map<int, Managed>, base: Trace, trace: Trace,
                         desired: seq<Desired>, i: nat)
    requires i <= |desired|
  {
    Unmoved(start, now) && trace == base + Refreshes(start, desired[..i])
  }

  ghost predicate SameAt(a: map<int, Managed>, b: map<int, Managed>, id: int) {
    (id in a <==> id in b) && (id in a ==> a[id] == b[id])
  }

  ghost predicate OnlyAt(a: map<int, Managed>, b: map<int, Managed>, id: int) {
    forall other :: other != id ==> SameAt(a, b, other)
  }

  class Manager {
    var ifaces: map<int, Managed>
    var next: Dev
    ghost var trace: Trace
    ghost var world: World
    /** buildUAPIConfig, which can fail, and addressFingerprint. */
    const render: Desired -> Option<string>
    const fingerprint: Desired -> string

    ghost predicate Valid()
      reads this
    {
      && world == Replay(trace, true)
      && Inv(world, next, Slots(ifaces), {}, true)
      && forall id <- ifaces :: Recorded(id, ifaces[id])
    }

    /** The bookkeeping of one managed interface. */
    ghost predicate Recorded(id: int, m: Managed) {
      m.desired.id == id && m.structFP == fingerprint(m.desired) && render(m.desired) == Some(m.conf)
    }

    /** The bookkeeping of every interface but one. */
    ghost predicate OthersRecorded(id: int)
      reads this
    {
      forall k <- ifaces :: k != id ==> Recorded(k, ifaces[k])
    }

    /** The interface already runs exactly what is desired. */
    ghost predicate Applied(d: Desired)
      reads this
    {
      AppliedIn(ifaces, d)
    }

    ghost predicate AppliedIn(ifaces: map<int, Managed>, d: Desired) {
      d.id in ifaces && ifaces[d.id].structFP == fingerprint(d) && render(d) == Some(ifaces[d.id].conf)
    }

    /** Whether bringing d up will succeed: a running device of the same address and MTU only needs to take the new
        configuration, if it is new; anything else is built from scratch. */
    predicate Succeeds(ifaces: map<int, Managed>, d: Desired, luck: Luck) {
      && render(d).Some?
      && if d.id in ifaces && ifaces[d.id].structFP == fingerprint(d)
         then render(d).value == ifaces[d.id].conf || luck.accepted
         else luck.made && luck.accepted && luck.up
    }

    ghost predicate AllApplied(desired: seq<Desired>)
      reads this
    {
      forall i :: 0 <= i < |desired| ==> Applied(desired[i])
    }

    constructor (render: Desired -> Option<string>, fingerprint: Desired -> string)
      ensures Valid() && ifaces == map[] && trace == []
      ensures this.render == render && this.fingerprint == fingerprint
    {
      this.render, this.fingerprint := render, fingerprint;
      ifaces, next, trace, world := map[], 0, [], NOTHING;
    }

    ghost method Record(c: Call)
      requires world == Replay(trace, true)
      modifies this`trace, this`world
      ensures world == Replay(trace, true)
      ensures trace == old(trace) + [c] && world == Step(old(world), c, true)
    {
      ReplaySnoc(trace, c, true);
      trace, world := trace + [c], Step(world, c, true);
    }

    ghost method RecordAll(cs: Trace)
      requires world == Replay(trace, true)
      modifies this`trace, this`world
      ensures world == Replay(trace, true)
      ensures trace == old(trace) + cs && world == Run(old(world), cs, true)
    {
      ReplayAppend(trace, cs, true);
      trace, world := trace + cs, Run(world, cs, true);
    }

    /** managed.close and the delete that follows it: port forwards, device, relay. */
    method Close(id: int)
      requires Valid() && id in ifaces
      modifies this
      ensures Valid() && ifaces == old(ifaces) - {id} && next == old(next)
      ensures var d := old(ifaces)[id].dev; trace == old(trace) + [ForwardsClosed(d), Closed(d), RelayClosed(d)]
    {
      var d := ifaces[id].dev;
      ghost var slots := Slots(ifaces);
      ghost var calls := [ForwardsClosed(d), Closed(d), RelayClosed(d)];
      Release(world, next, slots, true, id);
      Drop(world, next, slots - {id}, true, d, calls);
      RecordAll(calls);
      ifaces := ifaces - {id};
      assert Slots(ifaces) == slots - {id};
    }

    /** dev.Configure: render, IpcSet, Up; any failure closes the device, then the relay and the forwards. */
    method Configure(ghost dev: Dev, d: Desired, luck: Luck) returns (conf: Option<string>)
      requires world == Replay(trace, true) && Inv(world, next, Slots(ifaces), {dev}, true) && dev in world.attached
      modifies this`trace, this`world
      ensures world == Replay(trace, true) && old(trace) <= trace
      ensures conf.Some? ==> Inv(world, next, Slots(ifaces), {dev}, true) && render(d) == conf
      ensures conf.Some? ==> dev in world.attached && dev in world.accepted && world.accepted[dev] == conf.value
      ensures conf.Some? ==> dev in world.up
      ensures conf.Some? ==> world.indexed == old(world.indexed)
      ensures conf.Some? ==> trace == old(trace) + [Set(dev, conf.value, true)] + [Up(dev, true)]
      ensures conf.None? ==>
                trace == old(trace) + Tries(render(d), dev, luck) + [Closed(dev), RelayClosed(dev), ForwardsClosed(dev)]
      ensures conf.None? ==> Inv(world, next, Slots(ifaces), {}, true)
      ensures conf.Some? <==> render(d).Some? && luck.accepted && luck.up
    {
      ghost var slots := Slots(ifaces);
      conf := render(d);
      if conf.Some? {
        Harmless(world, next, slots, {dev}, true, Set(dev, conf.value, luck.accepted));
        Record(Set(dev, conf.value, luck.accepted));
        if luck.accepted {
          Harmless(world, next, slots, {dev}, true, Up(dev, luck.up));
          Record(Up(dev, luck.up));
          if luck.up { return; }
        }
      }
      ghost var calls := [Closed(dev), RelayClosed(dev), ForwardsClosed(dev)];
      Drop(world, next, slots, true, dev, calls);
      RecordAll(calls);
      conf := None;
    }

    /** newUnconfiguredDevice and the handlers, attached while nothing is configured yet. */
    method Prepare(d: Desired) returns (dev: Dev)
      requires Valid()
      modifies this`trace, this`world, this`next
      ensures world == Replay(trace, true) && old(trace) <= trace
      ensures Inv(world, next, Slots(ifaces), {dev}, true) && dev in world.attached && dev == old(next)
      ensures dev in world.indexed && world.indexed[dev] == d.inst
    {
      dev := next;
      ghost var slots := Slots(ifaces);
      Create(world, next, slots, true);
      Record(Created(dev));
      next := next + 1;
      Harmless(world, next, slots, {dev}, true, PeersStored(dev, d.inst));
      Record(PeersStored(dev, d.inst));
      Harmless(world, next, slots, {dev}, true, Attached(dev));
      Record(Attached(dev));
    }

    /** The rebuild branch: a fresh device gets its handlers before it is configured. */
    method Build(d: Desired, luck: Luck) returns (ok: bool)
      requires Valid() && d.id !in ifaces
      modifies this
      ensures Valid() && old(trace) <= trace
      ensures ok ==> d.id in ifaces && ifaces == old(ifaces)[d.id := ifaces[d.id]] && ifaces[d.id].desired == d
      ensures ok ==> ifaces[d.id].dev == old(next)
      ensures ok <==> luck.made && render(d).Some? && luck.accepted && luck.up
      ensures !ok ==> ifaces == old(ifaces)
    {
      if !luck.made { return false; }
      var dev := Prepare(d);
      var conf := Configure(dev, d, luck);
      if conf.None? { return false; }
      Install(dev, d, conf.value);
      ok := true;
    }

    /** The configured device enters the map, and its port forwards open. */
    method Install(dev: Dev, d: Desired, conf: string)
      requires world == Replay(trace, true) && Inv(world, next, Slots(ifaces), {dev}, true) && d.id !in ifaces
      requires dev in world.attached && dev in world.accepted && world.accepted[dev] == conf && render(d) == Some(conf)
      requires dev in world.up
      requires dev in world.indexed && world.indexed[dev] == d.inst
      requires forall id <- ifaces :: Recorded(id, ifaces[id])
      modifies this
      ensures Valid() && trace == old(trace) + [ForwardsReconciled(dev, d.inst)]
      ensures ifaces == old(ifaces)[d.id := Managed(dev, d, fingerprint(d), conf)]
    {
      ghost var slots := Slots(ifaces);
      SlotsPut(ifaces, d.id, Managed(dev, d, fingerprint(d), conf));
      ifaces := ifaces[d.id := Managed(dev, d, fingerprint(d), conf)];
      AdoptForwarded(world, next, slots, d.id, Slot(dev, conf, d.inst));
      Record(ForwardsReconciled(dev, d.inst));
    }

    /** The refresh both in-place branches end with. */
    method Refresh(d: Desired)
      requires world == Replay(trace, true) && Inv(world, next, Slots(ifaces), {}, true) && Applied(d)
      requires OthersRecorded(d.id)
      modifies this
      ensures Valid() && next == old(next)
      ensures ifaces == old(ifaces)[d.id := old(ifaces)[d.id].(desired := d)]
      ensures var dev := old(ifaces)[d.id].dev;
              trace == old(trace) + [PeersStored(dev, d.inst)] + [ForwardsReconciled(dev, d.inst)]
    {
      var dev := ifaces[d.id].dev;
      ghost var slots := Slots(ifaces);
      Retarget(world, next, slots, true, d.id, d.inst);
      Record(PeersStored(dev, d.inst));
      Record(ForwardsReconciled(dev, d.inst));
      SlotsPut(ifaces, d.id, ifaces[d.id].(desired := d));
      ifaces := ifaces[d.id := ifaces[d.id].(desired := d)];
    }

    /** The in-place IpcSet. */
    method Reset(id: int, conf: string, ok: bool)
      requires Valid() && id in ifaces
      modifies this
      ensures world == Replay(trace, true) && Inv(world, next, Slots(ifaces), {}, true) && next == old(next)
      ensures OthersRecorded(id) && (!ok ==> Valid())
      ensures trace == old(trace) + [Set(old(ifaces)[id].dev, conf, ok)]
      ensures ifaces == if ok then old(ifaces)[id := old(ifaces)[id].(conf := conf)] else old(ifaces)
    {
      var dev := ifaces[id].dev;
      ghost var slots := Slots(ifaces);
      assert slots[id].dev in SlotDevs(slots);
      assert SlotRuns(world, slots[id], true);
      if ok {
        Reconfigure(world, next, slots, true, id, conf);
        SlotsPut(ifaces, id, ifaces[id].(conf := conf));
        ifaces := ifaces[id := ifaces[id].(conf := conf)];
      } else {
        Harmless(world, next, slots, {}, true, Set(dev, conf, false));
      }
      Record(Set(dev, conf, ok));
    }

    /** ensureLocked. */
    method EnsureLocked(d: Desired, luck: Luck) returns (ok: bool)
      requires Valid()
      modifies this
      ensures Valid() && old(trace) <= trace
      // Success means the desired interface is the one running.
      ensures ok ==> Applied(d) && ifaces[d.id].desired == d
      ensures ok == Succeeds(old(ifaces), d, luck)
      // No other inbound is touched.
      ensures OnlyAt(old(ifaces), ifaces, d.id)
      // An unchanged interface sees no IpcSet: only its peer index and its port forwards are refreshed.
      ensures old(Applied(d)) ==> ok && ifaces == old(ifaces)[d.id := old(ifaces)[d.id].(desired := d)]
      ensures old(Applied(d)) ==> var dev := old(ifaces)[d.id].dev;
                trace == old(trace) + [PeersStored(dev, d.inst)] + [ForwardsReconciled(dev, d.inst)]
      // The same address and MTU never cost the device.
      ensures (d.id in old(ifaces) && old(ifaces)[d.id].structFP == fingerprint(d))
              ==> d.id in ifaces && ifaces[d.id].dev == old(ifaces)[d.id].dev
    {
      if d.id in ifaces && ifaces[d.id].structFP == fingerprint(d) {
        ok := Update(d, luck.accepted);
        return;
      }
      if d.id in ifaces {
        Close(d.id);
      }
      ok := Build(d, luck);
    }

    /** The two in-place branches: nothing new, or one IpcSet; both end with the refresh. */
    method Update(d: Desired, accepted: bool) returns (ok: bool)
      requires Valid() && d.id in ifaces && ifaces[d.id].structFP == fingerprint(d)
      modifies this
      ensures Valid() && old(trace) <= trace
      ensures ok == (render(d).Some? && (render(d).value == old(ifaces)[d.id].conf || accepted))
      ensures d.id in ifaces && ifaces == old(ifaces)[d.id := ifaces[d.id]] && ifaces[d.id].dev == old(ifaces)[d.id].dev
      ensures ok ==> ifaces[d.id] == old(ifaces)[d.id].(desired := d, conf := render(d).value)
      ensures old(Applied(d)) ==> var dev := old(ifaces)[d.id].dev;
                trace == old(trace) + [PeersStored(dev, d.inst)] + [ForwardsReconciled(dev, d.inst)]
    {
      var conf := render(d);
      if conf.None? { return false; }
      if conf.value != ifaces[d.id].conf {
        Reset(d.id, conf.value, accepted);
        if !accepted { return false; }
      }
      Refresh(d);
      ok := true;
    }

    method CloseUnwanted(want: set<int>)
      requires Valid()
      modifies this
      ensures Valid() && old(trace) <= trace
      ensures ifaces == map id | id in old(ifaces) && id in want :: old(ifaces)[id]
      ensures old(ifaces).Keys <= want ==> trace == old(trace)
    {
      var ids := ifaces.Keys;
      while ids != {}
        invariant Valid() && old(trace) <= trace
        invariant ids <= ifaces.Keys
        invariant ifaces == map id | id in old(ifaces) && (id in want || id in ids) :: old(ifaces)[id]
        invariant old(ifaces).Keys <= want ==> trace == old(trace)
        decreases ids
      {
        var id := PickAny(ids);
        ids := ids - {id};
        if id !in want {
          Close(id);
        }
      }
    }

    /** How far the second half of Reconcile has come: the first i desired interfaces are settled, the others are as
        they were at the start. */
    ghost predicate Settled(start: map<int, Managed>, now: map<int, Managed>, desired: seq<Desired>,
                            lucks: nat -> Luck, failed: seq<bool>) {
      && |failed| <= |desired|
      && (forall j :: 0 <= j < |failed| ==> failed[j] == !Succeeds(start, desired[j], lucks(j)))
      && (forall j :: 0 <= j < |failed| && !failed[j] ==> AppliedIn(now, desired[j]))
      && (forall j :: |failed| <= j < |desired| ==> SameAt(start, now, desired[j].id))
    }

    lemma SettleNext(start: map<int, Managed>, before: map<int, Managed>, after: map<int, Managed>, desired: seq<Desired>,
                     lucks: nat -> Luck, failed: seq<bool>, ok: bool)
      requires Settled(start, before, desired, lucks, failed) && |failed| < |desired| && DistinctIds(desired)
      requires var d := desired[|failed|];
               && OnlyAt(before, after, d.id) && ok == Succeeds(before, d, lucks(|failed|)) && (ok ==> AppliedIn(after, d))
      ensures Settled(start, after, desired, lucks, failed + [!ok])
    {
      var i := |failed|;
      assert SameAt(start, before, desired[i].id);
      forall j | 0 <= j < |desired| && j != i ensures SameAt(before, after, desired[j].id) {
        assert desired[j].id != desired[i].id;
      }
      forall j | i + 1 <= j < |desired| ensures SameAt(start, after, desired[j].id) {
        assert SameAt(start, before, desired[j].id) && SameAt(before, after, desired[j].id);
      }
      forall j | 0 <= j < i && !failed[j] ensures AppliedIn(after, desired[j]) {
        assert AppliedIn(before, desired[j]) && SameAt(before, after, desired[j].id);
      }
    }

    /** Where the second half of Reconcile stands after |failed| rounds, for distinct ids and for an applied list. */
    ghost predicate SoFar(start: map<int, Managed>, now: map<int, Managed>, base: Trace, trace: Trace,
                          desired: seq<Desired>, lucks: nat -> Luck, failed: seq<bool>) {
      && |failed| <= |desired|
      && (DistinctIds(desired) ==> Settled(start, now, desired, lucks, failed))
      && (AllIn(start, desired) ==> Hushed(start, now, base, trace, desired, |failed|) && true !in failed)
    }

    ghost predicate AllIn(ifaces: map<int, Managed>, desired: seq<Desired>) {
      forall i :: 0 <= i < |desired| ==> AppliedIn(ifaces, desired[i])
    }

    lemma SoFarNext(start: map<int, Managed>, before: map<int, Managed>, after: map<int, Managed>, base: Trace,
                    earlier: Trace, later: Trace, desired: seq<Desired>, lucks: nat -> Luck, failed: seq<bool>, ok: bool)
      requires SoFar(start, before, base, earlier, desired, lucks, failed) && |failed| < |desired|
      requires var d := desired[|failed|];
               && OnlyAt(before, after, d.id) && ok == Succeeds(before, d, lucks(|failed|)) && (ok ==> AppliedIn(after, d))
      requires Hushed(start, before, base, earlier, desired, |failed|) && AppliedIn(start, desired[|failed|])
               ==> ok && Hushed(start, after, base, later, desired, |failed| + 1)
      ensures SoFar(start, after, base, later, desired, lucks, failed + [!ok])
    {
      if DistinctIds(desired) {
        SettleNext(start, before, after, desired, lucks, failed, ok);
      }
    }

    /** The second half of Reconcile: ensure every desired interface, going on after a failure. */
    method EnsureAll(desired: seq<Desired>, lucks: nat -> Luck) returns (failed: seq<bool>)
      requires Valid() && ifaces.Keys <= WantedIds(desired)
      modifies this
      ensures Valid() && |failed| == |desired| && ifaces.Keys <= WantedIds(desired)
      ensures SoFar(old(ifaces), ifaces, old(trace), trace, desired, lucks, failed)
    {
      failed := [];
      assert trace + Refreshes(ifaces, desired[..0]) == trace;
      for i := 0 to |desired|
        invariant Valid() && |failed| == i && ifaces.Keys <= WantedIds(desired)
        invariant SoFar(old(ifaces), ifaces, old(trace), trace, desired, lucks, failed)
      {
        ghost var before, earlier := ifaces, trace;
        var ok := EnsureOne(desired, i, lucks(i), old(ifaces), old(trace));
        SoFarNext(old(ifaces), before, ifaces, old(trace), earlier, trace, desired, lucks, failed, ok);
        failed := failed + [!ok];
      }
    }

    /** One round of that loop. */
    method EnsureOne(desired: seq<Desired>, i: nat, luck: Luck, ghost start: map<int, Managed>, ghost base: Trace)
      returns (ok: bool)
      requires Valid() && ifaces.Keys <= WantedIds(desired) && i < |desired|
      modifies this
      ensures Valid() && ifaces.Keys <= WantedIds(desired)
      ensures OnlyAt(old(ifaces), ifaces, desired[i].id) && ok == Succeeds(old(ifaces), desired[i], luck)
      ensures ok ==> AppliedIn(ifaces, desired[i])
      ensures Hushed(start, old(ifaces), base, old(trace), desired, i) && AppliedIn(start, desired[i])
              ==> ok && Hushed(start, ifaces, base, trace, desired, i + 1)
    {
      ghost var before := ifaces;
      assert desired[i].id in WantedIds(desired);
      if desired[i].id in start { RefreshesNext(start, desired, i, base); }
      ok := EnsureLocked(desired[i], luck);
      forall id | id in ifaces ensures id in WantedIds(desired) {
        assert id != desired[i].id ==> SameAt(before, ifaces, id);
      }
    }

    /** Reconcile: stop what is no longer desired, then ensure every desired interface. */
    method Reconcile(desired: seq<Desired>, lucks: nat -> Luck) returns (failed: seq<bool>)
      requires Valid()
      modifies this
      ensures Valid() && |failed| == |desired|
      // Nothing outside the desired list survives, whatever failed.
      ensures ifaces.Keys <= WantedIds(desired)
      // With distinct ids, the failures are those the devices answered with, each inbound on its own, and every
      // interface not reported as failed runs exactly what was desired.
      ensures DistinctIds(desired) ==>
                forall i :: 0 <= i < |desired| ==>
                  && failed[i] == !Succeeds(old(ifaces), desired[i], lucks(i))
                  && (!failed[i] ==> Applied(desired[i]))
      // Repeating an applied list succeeds, and issues the refreshes and nothing else.
      ensures old(ifaces).Keys <= WantedIds(desired) && old(AllApplied(desired)) ==>
                forall i :: 0 <= i < |desired| ==> !failed[i]
      ensures old(ifaces).Keys <= WantedIds(desired) && old(AllApplied(desired))
              ==> trace == old(trace) + Refreshes(old(ifaces), desired)
    {
      ghost var before := ifaces;
      CloseUnwanted(WantedIds(desired));
      assert before.Keys <= WantedIds(desired) ==> ifaces == before;
      ghost var kept := ifaces;
      failed := EnsureAll(desired, lucks);
      ReconcileOutcome(before, kept, desired, lucks);
      assert desired[..|desired|] == desired;
    }

    /** What was closed for not being wanted does not bear on what is. */
    lemma ReconcileOutcome(before: map<int, Managed>, kept: map<int, Managed>, desired: seq<Desired>,
                           lucks: nat -> Luck)
      requires kept == map id | id in before && id in WantedIds(desired) :: before[id]
      ensures forall i :: 0 <= i < |desired| ==>
                Succeeds(kept, desired[i], lucks(i)) == Succeeds(before, desired[i], lucks(i))
    {
      forall i | 0 <= i < |desired|
        ensures Succeeds(kept, desired[i], lucks(i)) == Succeeds(before, desired[i], lucks(i))
      {
        assert desired[i].id in WantedIds(desired);
        assert desired[i].id in kept <==> desired[i].id in before;
      }
    }

    method Remove(id: int)
      requires Valid()
      modifies this
      ensures Valid() && ifaces == old(ifaces) - {id}
    {
      if id in ifaces {
        Close(id);
      }
    }

    /** StopAll leaves no interface and no live device. */
    method StopAll()
      requires Valid()
      modifies this
      ensures Valid() && ifaces == map[]
      ensures forall d: Dev :: !Live(trace, d)
    {
      CloseUnwanted({});
      assert ifaces == map[];
      assert world.live == {};
      forall d: Dev ensures !Live(trace, d) {
        WorldMeans(trace, true, d);
      }
    }

    /** Any sequence of operations, with any outcome of any device call, keeps the manager consistent. */
    method RunAll(ops: seq<Op>)
      requires Valid()
      modifies this
      ensures Valid()
    {
      for i := 0 to |ops|
        invariant Valid()
      {
        match ops[i] {
          case Reconcile(desired, lucks) => var _ := Reconcile(desired, lucks);
          case Ensure(d, luck) => var _ := EnsureLocked(d, luck);
          case Remove(id) => Remove(id);
          case StopAll => StopAll();
        }
      }
    }
  }

  /** What consistency means for the recorded calls: devices in the map are exactly the live ones, each brought up
      and running its recorded configuration, with the peer index and the port forwards of the interface last asked for;
      handlers precede every IpcSet; a relay is swept only after its device closed. */
  lemma ValidMeans(m: Manager)
    requires m.Valid()
    ensures forall d: Dev :: Live(m.trace, d) <==> exists id :: id in m.ifaces && m.ifaces[id].dev == d
    ensures forall id <- m.ifaces :: LastAccepted(m.trace, m.ifaces[id].dev) == Some(m.ifaces[id].conf)
    ensures forall id <- m.ifaces :: Up(m.ifaces[id].dev, true) in m.trace
    ensures forall id <- m.ifaces :: var inst := m.ifaces[id].desired.inst;
              LastIndexed(m.trace, m.ifaces[id].dev) == Some(inst) && LastForwarded(m.trace, m.ifaces[id].dev) == Some(inst)
    ensures forall i :: 0 <= i < |m.trace| && m.trace[i].Set? ==> Attached(m.trace[i].d) in m.trace[..i]
    ensures forall i :: 0 <= i < |m.trace| && m.trace[i].RelayClosed? ==> Closed(m.trace[i].d) in m.trace[..i]
    ensures forall d: Dev :: Closed(d) in m.trace ==> RelayClosed(d) in m.trace && ForwardsClosed(d) in m.trace
  {
    var slots := Slots(m.ifaces);
    forall d: Dev
      ensures Live(m.trace, d) <==> exists id :: id in m.ifaces && m.ifaces[id].dev == d
      ensures Closed(d) in m.trace ==> RelayClosed(d) in m.trace && ForwardsClosed(d) in m.trace
    {
      WorldMeans(m.trace, true, d);
      if Closed(d) in m.trace {
        assert d in m.world.created - m.world.live;
        assert d in m.world.relayClosed * m.world.forwardsClosed;
      }
      assert d in SlotDevs(slots) <==> exists id :: id in m.ifaces && m.ifaces[id].dev == d by {
        if d in SlotDevs(slots) {
          var id := Owner(slots, d);
          assert m.ifaces[id].dev == d;
        }
        if id :| id in m.ifaces && m.ifaces[id].dev == d {
          assert slots[id].dev == d;
        }
      }
    }
    forall id | id in m.ifaces
      ensures LastAccepted(m.trace, m.ifaces[id].dev) == Some(m.ifaces[id].conf) && Up(m.ifaces[id].dev, true) in m.trace
      ensures LastIndexed(m.trace, m.ifaces[id].dev) == Some(m.ifaces[id].desired.inst)
      ensures LastForwarded(m.trace, m.ifaces[id].dev) == Some(m.ifaces[id].desired.inst)
    {
      assert SlotRuns(m.world, slots[id], true);
      WorldMeans(m.trace, true, m.ifaces[id].dev);
    }
    forall i | 0 <= i < |m.trace| && (m.trace[i].Set? || m.trace[i].RelayClosed?)
      ensures if m.trace[i].Set? then Attached(m.trace[i].d) in m.trace[..i] else Closed(m.trace[i].d) in m.trace[..i]
    {
      OrderlyMeans(m.trace, true, i);
      WorldMeans(m.trace[..i], true, m.trace[i].d);
    }
  }
}
