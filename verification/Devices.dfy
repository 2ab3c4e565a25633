/** Embedded AmneziaWG devices as their managers use them (internal/amneziawgnet/device.go, client_device.go):
    a device is created, set up through IpcSet and Up, and closed. Every call is recorded in a trace, and every
    call that can fail may fail. */
module Devices {
  import opened Text

  type Dev = nat

  datatype Call =
    | Created(d: Dev)
    | Attached(d: Dev)
    | Set(d: Dev, conf: string, ok: bool)
    | Up(d: Dev, ok: bool)
    | Closed(d: Dev)
    | RelayClosed(d: Dev)
    | ForwardsClosed(d: Dev)
    | PeersStored(d: Dev, inst: string)
    | ForwardsReconciled(d: Dev, inst: string)

  type Trace = seq<Call>

  /** What the environment answers: whether a device can be built, takes a configuration, and comes up. */
  datatype Luck = Luck(made: bool, accepted: bool, up: bool)

  /** A device that was created and not closed. */
  predicate Live(t: Trace, d: Dev) { Created(d) in t && Closed(d) !in t }

  /** The configuration of the last IpcSet the device accepted. */
  function LastAccepted(t: Trace, d: Dev): Option<string> {
    if t == [] then None
    else
      var c := t[|t| - 1];
      if c.Set? && c.d == d && c.ok then Some(c.conf) else LastAccepted(t[..|t| - 1], d)
  }

  /** The interface whose peers the device's index was last built from. */
  function LastIndexed(t: Trace, d: Dev): Option<string> {
    if t == [] then None
    else
      var c := t[|t| - 1];
      if c.PeersStored? && c.d == d then Some(c.inst) else LastIndexed(t[..|t| - 1], d)
  }

  /** The interface the device's port forwards were last reconciled with. */
  function LastForwarded(t: Trace, d: Dev): Option<string> {
    if t == [] then None
    else
      var c := t[|t| - 1];
      if c.ForwardsReconciled? && c.d == d then Some(c.inst) else LastForwarded(t[..|t| - 1], d)
  }

  /** What the calls so far amount to. */
  datatype World = World(
    orderly: bool, created: set<Dev>, live: set<Dev>, attached: set<Dev>, accepted: map<Dev, string>,
    relayClosed: set<Dev>, forwardsClosed: set<Dev>, up: set<Dev>, indexed: map<Dev, string>, forwarded: map<Dev, string>)

  const NOTHING := World(true, {}, {}, {}, map[], {}, {}, {}, map[], map[])

  /** Whether a call may follow. Devices that carry handlers must have them attached before the first IpcSet,
      and a relay is swept only after its device stopped delivering packets. */
  predicate Fits(w: World, c: Call, handlers: bool) {
    match c
    case Created(d) => d !in w.created
    case Set(d, _, _) => d in w.live && (handlers ==> d in w.attached)
    case RelayClosed(d) => d in w.created && d !in w.live
    case ForwardsClosed(d) => d in w.created
    case _ => c.d in w.live
  }

  function Step(w: World, c: Call, handlers: bool): World {
    var v := w.(orderly := w.orderly && Fits(w, c, handlers));
    match c
    case Created(d) => v.(created := v.created + {d}, live := v.live + {d})
    case Attached(d) => v.(attached := v.attached + {d})
    case Set(d, conf, ok) => if ok then v.(accepted := v.accepted[d := conf]) else v
    case Up(d, ok) => if ok then v.(up := v.up + {d}) else v
    case Closed(d) => v.(live := v.live - {d})
    case RelayClosed(d) => v.(relayClosed := v.relayClosed + {d})
    case ForwardsClosed(d) => v.(forwardsClosed := v.forwardsClosed + {d})
    case PeersStored(d, inst) => v.(indexed := v.indexed[d := inst])
    case ForwardsReconciled(d, inst) => v.(forwarded := v.forwarded[d := inst])
  }

  function Replay(t: Trace, handlers: bool): World {
    if t == [] then NOTHING else Step(Replay(t[..|t| - 1], handlers), t[|t| - 1], handlers)
  }

  lemma ReplaySnoc(t: Trace, c: Call, handlers: bool)
    ensures Replay(t + [c], handlers) == Step(Replay(t, handlers), c, handlers)
  {
    assert (t + [c])[..|t|] == t;
  }

  /** The sets of a world say what the calls say. */
  predicate Sets(w: World, t: Trace, d: Dev) {
    && (d in w.created <==> Created(d) in t)
    && (d in w.live <==> Live(t, d))
    && (d in w.attached <==> Attached(d) in t)
    && (d in w.up <==> Up(d, true) in t)
    && (d in w.relayClosed <==> RelayClosed(d) in t)
    && (d in w.forwardsClosed <==> ForwardsClosed(d) in t)
    && (Closed(d) in t ==> Created(d) in t)
  }

  lemma SetsStep(w: World, t: Trace, c: Call, handlers: bool, d: Dev)
    requires Sets(w, t, d) && Fits(w, c, handlers) && (d in w.live ==> d in w.created)
    ensures Sets(Step(w, c, handlers), t + [c], d)
  {
    assert forall x :: x in t + [c] <==> x in t || x == c;
  }

  function At(m: map<Dev, string>, d: Dev): Option<string> { if d in m then Some(m[d]) else None }

  /** The maps of a world hold what each device was last given. */
  predicate Maps(w: World, t: Trace, d: Dev) {
    && At(w.accepted, d) == LastAccepted(t, d)
    && At(w.indexed, d) == LastIndexed(t, d)
    && At(w.forwarded, d) == LastForwarded(t, d)
  }

  lemma MapsStep(w: World, t: Trace, c: Call, handlers: bool, d: Dev)
    requires Maps(w, t, d)
    ensures Maps(Step(w, c, handlers), t + [c], d)
  {
    assert (t + [c])[..|t|] == t;
    match c
    case Set(_, _, _) =>
    case PeersStored(_, _) =>
    case ForwardsReconciled(_, _) =>
    case _ =>
  }

  /** The world of an orderly trace says what the calls themselves say. */
  lemma {:induction false} WorldMeans(t: Trace, handlers: bool, d: Dev)
    requires Replay(t, handlers).orderly
    ensures Sets(Replay(t, handlers), t, d) && Maps(Replay(t, handlers), t, d)
  {
    if t != [] {
      var n := |t| - 1;
      WorldMeans(t[..n], handlers, d);
      SetsStep(Replay(t[..n], handlers), t[..n], t[n], handlers, d);
      MapsStep(Replay(t[..n], handlers), t[..n], t[n], handlers, d);
      assert t == t[..n] + [t[n]];
    }
  }

  /** In an orderly trace every single call fitted the calls before it. */
  lemma {:induction false} OrderlyMeans(t: Trace, handlers: bool, i: nat)
    requires Replay(t, handlers).orderly && i < |t|
    ensures Replay(t[..i], handlers).orderly && Fits(Replay(t[..i], handlers), t[i], handlers)
  {
    var n := |t| - 1;
    if i < n {
      OrderlyMeans(t[..n], handlers, i);
      assert t[..n][..i] == t[..i];
    }
  }

  // ---------------------------------------------------------------- devices and their owners

  /** A managed device, and the configuration and the interface recorded for it. */
  datatype Slot = Slot(dev: Dev, conf: string, inst: string)

  /** The peer index and the port forwards are those of the interface. */
  predicate Current(w: World, d: Dev, inst: string) {
    d in w.indexed && w.indexed[d] == inst && d in w.forwarded && w.forwarded[d] == inst
  }

  function SlotDevs<K>(slots: map<K, Slot>): set<Dev> { set k <- slots :: slots[k].dev }

  ghost predicate OneSlotEach<K(!new)>(slots: map<K, Slot>) {
    forall k, l :: k in slots && l in slots && slots[k].dev == slots[l].dev ==> k == l
  }

  ghost predicate SlotRuns(w: World, s: Slot, handlers: bool) {
    && s.dev in w.accepted && w.accepted[s.dev] == s.conf && s.dev in w.up
    && (handlers ==> s.dev in w.attached && Current(w, s.dev, s.inst))
  }

  /** The live devices are exactly those in a slot and those the running call still holds; every slot records the last
      configuration its device accepted; and a closed device has its relay and its port forwards closed too. */
  ghost predicate Inv<K(!new)>(w: World, next: Dev, slots: map<K, Slot>, hands: set<Dev>, handlers: bool) {
    && w.orderly
    && (forall d <- w.created :: d < next)
    && w.live <= w.created
    && w.live == SlotDevs(slots) + hands
    && SlotDevs(slots) !! hands
    && OneSlotEach(slots)
    && (forall k <- slots :: SlotRuns(w, slots[k], handlers))
    && (handlers ==> w.created - w.live <= w.relayClosed * w.forwardsClosed)
  }

  lemma Owner<K(!new)>(slots: map<K, Slot>, d: Dev) returns (k: K)
    requires d in SlotDevs(slots)
    ensures k in slots && slots[k].dev == d
  {
    k :| k in slots && slots[k].dev == d;
  }

  /** A configured device moves from the hands of the call into a slot of its own. */
  lemma Adopt<K(!new)>(w: World, next: Dev, slots: map<K, Slot>, handlers: bool, k: K, s: Slot)
    requires Inv(w, next, slots, {s.dev}, handlers) && k !in slots
    requires SlotRuns(w, s, handlers)
    ensures Inv(w, next, slots[k := s], {}, handlers)
  {
    SlotDevsAdd(slots, k, s);
    assert forall l <- slots :: slots[l].dev in SlotDevs(slots);
  }

  lemma SlotDevsAdd<K(!new)>(slots: map<K, Slot>, k: K, s: Slot)
    requires k !in slots
    ensures SlotDevs(slots[k := s]) == SlotDevs(slots) + {s.dev}
  {
    var after := slots[k := s];
    assert k in after && after[k] == s;
    assert forall l <- slots :: l in after && after[l] == slots[l];
  }

  lemma SlotDevsRemove<K(!new)>(slots: map<K, Slot>, k: K)
    requires k in slots && OneSlotEach(slots)
    ensures SlotDevs(slots - {k}) == SlotDevs(slots) - {slots[k].dev}
  {
    var after := slots - {k};
    forall d | d in SlotDevs(slots) - {slots[k].dev} ensures d in SlotDevs(after) {
      var l :| l in slots && slots[l].dev == d;
      assert l in after;
    }
  }

  lemma SlotDevsSame<K(!new)>(slots: map<K, Slot>, k: K, s: Slot)
    requires k in slots && s.dev == slots[k].dev
    ensures SlotDevs(slots[k := s]) == SlotDevs(slots)
  {
    var after := slots[k := s];
    assert forall l <- slots :: l in after && after[l].dev == slots[l].dev;
    assert forall l <- after :: l in slots && after[l].dev == slots[l].dev;
  }

  /** A slot is given up: its device is back in the hands of the call. */
  lemma Release<K(!new)>(w: World, next: Dev, slots: map<K, Slot>, handlers: bool, k: K)
    requires Inv(w, next, slots, {}, handlers) && k in slots
    ensures Inv(w, next, slots - {k}, {slots[k].dev}, handlers)
  {
    SlotDevsRemove(slots, k);
    assert slots[k].dev in SlotDevs(slots);
  }

  function Run(w: World, cs: Trace, handlers: bool): World
    decreases |cs|
  {
    if cs == [] then w else Run(Step(w, cs[0], handlers), cs[1..], handlers)
  }

  lemma {:induction false} ReplayAppend(t: Trace, cs: Trace, handlers: bool)
    ensures Replay(t + cs, handlers) == Run(Replay(t, handlers), cs, handlers)
    decreases |cs|
  {
    if cs == [] {
      assert t + cs == t;
    } else {
      assert t + cs == (t + [cs[0]]) + cs[1..];
      ReplaySnoc(t, cs[0], handlers);
      ReplayAppend(t + [cs[0]], cs[1..], handlers);
    }
  }

  /** The two orders in which a device with handlers is torn down, and the plain close of one without. */
  predicate Teardown(cs: Trace, d: Dev, handlers: bool) {
    if handlers then
      cs == [ForwardsClosed(d), Closed(d), RelayClosed(d)] || cs == [Closed(d), RelayClosed(d), ForwardsClosed(d)]
    else cs == [Closed(d)]
  }

  lemma TeardownWorld(w: World, cs: Trace, d: Dev, handlers: bool)
    requires w.orderly && d in w.live && d in w.created && Teardown(cs, d, handlers)
    ensures Run(w, cs, handlers)
         == w.(live := w.live - {d},
               relayClosed := if handlers then w.relayClosed + {d} else w.relayClosed,
               forwardsClosed := if handlers then w.forwardsClosed + {d} else w.forwardsClosed)
  {
    if handlers {
      assert cs[1..] == [cs[1], cs[2]] && [cs[1], cs[2]][1..] == [cs[2]] && [cs[2]][1..] == [];
      var w1 := Step(w, cs[0], handlers);
      var w2 := Step(w1, cs[1], handlers);
      assert Run(w2, [cs[2]], handlers) == Step(w2, cs[2], handlers);
      assert Run(w1, [cs[1], cs[2]], handlers) == Step(w2, cs[2], handlers);
    } else {
      assert cs[1..] == [];
    }
  }

  /** Tearing down the device in hand leaves nothing of it behind. */
  lemma Drop<K(!new)>(w: World, next: Dev, slots: map<K, Slot>, handlers: bool, d: Dev, cs: Trace)
    requires Inv(w, next, slots, {d}, handlers) && Teardown(cs, d, handlers)
    ensures Inv(Run(w, cs, handlers), next, slots, {}, handlers)
  {
    TeardownWorld(w, cs, d, handlers);
    var v := Run(w, cs, handlers);
    assert v.live == SlotDevs(slots);
    assert forall k <- slots :: SlotRuns(w, slots[k], handlers);
    assert forall k <- slots :: SlotRuns(v, slots[k], handlers);
    if handlers {
      assert v.created - v.live == (w.created - w.live) + {d};
      assert v.relayClosed * v.forwardsClosed >= (w.relayClosed * w.forwardsClosed) + {d};
    }
  }

  /** An indexed, configured device in hand enters a slot as its port forwards open. */
  lemma AdoptForwarded<K(!new)>(w: World, next: Dev, slots: map<K, Slot>, k: K, s: Slot)
    requires Inv(w, next, slots, {s.dev}, true) && k !in slots && s.dev in w.attached && s.dev in w.up
    requires s.dev in w.accepted && w.accepted[s.dev] == s.conf && s.dev in w.indexed && w.indexed[s.dev] == s.inst
    ensures Inv(Step(w, ForwardsReconciled(s.dev, s.inst), true), next, slots[k := s], {}, true)
  {
    Harmless(w, next, slots, {s.dev}, true, ForwardsReconciled(s.dev, s.inst));
    Adopt(Step(w, ForwardsReconciled(s.dev, s.inst), true), next, slots, true, k, s);
  }

  lemma Create<K(!new)>(w: World, next: Dev, slots: map<K, Slot>, handlers: bool)
    requires Inv(w, next, slots, {}, handlers)
    ensures Inv(Step(w, Created(next), handlers), next + 1, slots, {next}, handlers)
  {
    assert next !in w.created;
  }

  /** Attaching handlers, bringing up, a failed IpcSet, or anything done to a device in hand changes no slot. */
  lemma Harmless<K(!new)>(w: World, next: Dev, slots: map<K, Slot>, hands: set<Dev>, handlers: bool, c: Call)
    requires Inv(w, next, slots, hands, handlers) && Fits(w, c, handlers)
    requires c.Attached? || c.Up? || (c.Set? && (c.ok ==> c.d in hands))
             || ((c.PeersStored? || c.ForwardsReconciled?) && c.d in hands)
    ensures Inv(Step(w, c, handlers), next, slots, hands, handlers)
  {
    assert forall k <- slots :: slots[k].dev in SlotDevs(slots);
  }

  /** An accepted IpcSet on a managed device moves the recorded configuration with it. */
  lemma Reconfigure<K(!new)>(w: World, next: Dev, slots: map<K, Slot>, handlers: bool, k: K, conf: string)
    requires Inv(w, next, slots, {}, handlers) && k in slots
    ensures Inv(Step(w, Set(slots[k].dev, conf, true), handlers), next, slots[k := slots[k].(conf := conf)], {}, handlers)
  {
    SlotDevsSame(slots, k, slots[k].(conf := conf));
    assert slots[k].dev in SlotDevs(slots) && SlotRuns(w, slots[k], handlers);
  }

  /** Storing the peers and reconciling the forwards of a managed device moves the recorded interface with it. */
  lemma Retarget<K(!new)>(w: World, next: Dev, slots: map<K, Slot>, handlers: bool, k: K, inst: string)
    requires Inv(w, next, slots, {}, handlers) && k in slots
    ensures var dev := slots[k].dev;
            var v := Step(Step(w, PeersStored(dev, inst), handlers), ForwardsReconciled(dev, inst), handlers);
            Inv(v, next, slots[k := slots[k].(inst := inst)], {}, handlers)
  {
    SlotDevsSame(slots, k, slots[k].(inst := inst));
    assert slots[k].dev in SlotDevs(slots) && SlotRuns(w, slots[k], handlers);
  }
}
