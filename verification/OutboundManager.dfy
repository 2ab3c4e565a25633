/** The manager of AmneziaWG client tunnels (internal/amneziawgnet/outbound_manager.go) and the egress registry it
    keeps current (internal/amneziawgnet/egress.go): SOCKS traffic of an outbound tag leaves through the device the
    registry holds for that tag, so a registered device must be the tag's own and must be open. */
module OutboundManager {
  import opened Text
  import opened Devices

  datatype Desired = Desired(tag: string, dns: string, inst: string)

  datatype Managed = Managed(dev: Dev, conf: string, structFP: string)

  function Slots(iface: map<string, Managed>): map<string, Slot> {
    map tag | tag in iface :: Slot(iface[tag].dev, iface[tag].conf, "")
  }

  function Tags(desired: seq<Desired>): set<string> { set d <- desired :: d.tag }

  ghost predicate SameAt(a: map<string, Managed>, b: map<string, Managed>, tag: string) {
    (tag in a <==> tag in b) && (tag in a ==> a[tag] == b[tag])
  }

  ghost predicate OnlyAt(a: map<string, Managed>, b: map<string, Managed>, tag: string) {
    forall other :: other != tag ==> SameAt(a, b, other)
  }

  datatype Op =
    | Reconcile(desired: seq<Desired>, lucks: nat -> Luck, bound: bool)
    | Remove(tag: string)
    | StopAll

  /** The part of the egress server the manager drives: the device and the resolver of each tag, and the listener. */
  class Registry {
    var stacks: map<string, Dev>
    var dns: map<string, string>
    var listening: bool

    constructor ()
      ensures stacks == map[] && dns == map[] && !listening
    {
      stacks, dns, listening := map[], map[], false;
    }

    method SetStack(tag: string, dev: Dev, norm: string)
      modifies this`stacks, this`dns
      ensures stacks == old(stacks)[tag := dev]
      ensures dns == if norm != "" then old(dns)[tag := norm] else old(dns) - {tag}
    {
      stacks := stacks[tag := dev];
      if norm != "" { dns := dns[tag := norm]; } else { dns := dns - {tag}; }
    }

    method DeleteStack(tag: string)
      modifies this`stacks, this`dns
      ensures stacks == old(stacks) - {tag} && dns == old(dns) - {tag}
    {
      stacks, dns := stacks - {tag}, dns - {tag};
    }
  }

  class Manager {
    var iface: map<string, Managed>
    var next: Dev
    const egress: Registry
    ghost var trace: Trace
    ghost var world: World
    /** buildClientUAPIConfig, which can fail; outboundFingerprint; and the resolver address, normalised. */
    const render: Desired -> Option<string>
    const fingerprint: Desired -> string
    const resolver: Desired -> string

    ghost predicate Consistent()
      reads this
    {
      world == Replay(trace, false) && Inv(world, next, Slots(iface), {}, false)
    }

    /** The registry holds exactly the managed tags, each with the tag's own device. */
    ghost predicate Registered()
      reads this, egress
    {
      && egress.stacks.Keys == iface.Keys
      && (forall tag <- iface :: egress.stacks[tag] == iface[tag].dev)
      && egress.dns.Keys <= iface.Keys
    }

    /** What holds whenever the manager's lock is free. */
    ghost predicate Valid()
      reads this, egress
    {
      Consistent() && Registered()
    }

    ghost predicate AppliedIn(iface: map<string, Managed>, d: Desired) {
      d.tag in iface && iface[d.tag].structFP == fingerprint(d) && render(d) == Some(iface[d.tag].conf)
    }

    /** Whether bringing d up will succeed. */
    predicate Succeeds(iface: map<string, Managed>, d: Desired, luck: Luck) {
      && render(d).Some?
      && if d.tag in iface && iface[d.tag].structFP == fingerprint(d)
         then render(d).value == iface[d.tag].conf || luck.accepted
         else luck.made && luck.accepted && luck.up
    }

    /** The tag resolves names where its outbound says. */
    ghost predicate ResolverSet(d: Desired)
      reads egress
    {
      if resolver(d) != "" then d.tag in egress.dns && egress.dns[d.tag] == resolver(d) else d.tag !in egress.dns
    }

    constructor (render: Desired -> Option<string>, fingerprint: Desired -> string, resolver: Desired -> string)
      ensures Valid() && iface == map[] && trace == [] && fresh(egress)
      ensures this.render == render && this.fingerprint == fingerprint && this.resolver == resolver
    {
      this.render, this.fingerprint, this.resolver := render, fingerprint, resolver;
      iface, next, trace, world := map[], 0, [], NOTHING;
      egress := new Registry();
    }

    ghost method Record(c: Call)
      requires world == Replay(trace, false)
      modifies this`trace, this`world
      ensures world == Replay(trace, false)
      ensures trace == old(trace) + [c] && world == Step(old(world), c, false)
    {
      ReplaySnoc(trace, c, false);
      trace, world := trace + [c], Step(world, c, false);
    }

    /** Close the device of a tag and forget the tag everywhere. */
    method Close(tag: string)
      requires Valid() && tag in iface
      modifies this`trace, this`world, this`iface, egress`stacks, egress`dns
      ensures Valid() && iface == old(iface) - {tag}
      ensures trace == old(trace) + [Closed(old(iface)[tag].dev)]
    {
      var d := iface[tag].dev;
      ghost var slots := Slots(iface);
      Release(world, next, slots, false, tag);
      Drop(world, next, slots - {tag}, false, d, [Closed(d)]);
      assert Run(world, [Closed(d)], false) == Step(world, Closed(d), false);
      Record(Closed(d));
      egress.DeleteStack(tag);
      iface := iface - {tag};
      assert Slots(iface) == slots - {tag};
    }

    /** newUnconfiguredClientDevice and ConfigureClient: a device that fails to configure is closed again. */
    method Make(d: Desired, conf: string, luck: Luck) returns (dev: Dev)
      requires Consistent() && luck.made
      modifies this`trace, this`world, this`next
      ensures world == Replay(trace, false) && old(trace) <= trace && dev == old(next)
      ensures trace == old(trace) + [Created(dev)] + [Set(dev, conf, luck.accepted)]
                       + (if luck.accepted then [Up(dev, luck.up)] else [])
                       + (if luck.accepted && luck.up then [] else [Closed(dev)])
      ensures if luck.accepted && luck.up
              then Inv(world, next, Slots(iface), {dev}, false) && SlotRuns(world, Slot(dev, conf, ""), false)
              else Consistent()
    {
      dev := next;
      ghost var slots := Slots(iface);
      Create(world, next, slots, false);
      Record(Created(dev));
      next := next + 1;
      Harmless(world, next, slots, {dev}, false, Set(dev, conf, luck.accepted));
      Record(Set(dev, conf, luck.accepted));
      if luck.accepted {
        Harmless(world, next, slots, {dev}, false, Up(dev, luck.up));
        Record(Up(dev, luck.up));
        if luck.up { return; }
      }
      Drop(world, next, slots, false, dev, [Closed(dev)]);
      assert Run(world, [Closed(dev)], false) == Step(world, Closed(dev), false);
      Record(Closed(dev));
    }

    /** A fresh device enters the map and the registry. */
    method Build(d: Desired, conf: string, luck: Luck)
      requires Valid() && d.tag !in iface
      modifies this`trace, this`world, this`next, this`iface, egress`stacks, egress`dns
      ensures Valid() && old(trace) <= trace
      ensures if luck.made && luck.accepted && luck.up
              then iface == old(iface)[d.tag := Managed(old(next), conf, fingerprint(d))] && ResolverSet(d)
              else iface == old(iface)
    {
      if !luck.made { return; }
      var dev := Make(d, conf, luck);
      if !luck.accepted || !luck.up { return; }
      ghost var slots := Slots(iface);
      Adopt(world, next, slots, false, d.tag, Slot(dev, conf, ""));
      iface := iface[d.tag := Managed(dev, conf, fingerprint(d))];
      assert Slots(iface) == slots[d.tag := Slot(dev, conf, "")];
      egress.SetStack(d.tag, dev, resolver(d));
    }

    /** The in-place IpcSet; a refused one leaves the recorded configuration alone. */
    method Reset(tag: string, conf: string, ok: bool)
      requires Valid() && tag in iface
      modifies this`trace, this`world, this`iface
      ensures Valid() && trace == old(trace) + [Set(old(iface)[tag].dev, conf, ok)]
      ensures iface == if ok then old(iface)[tag := old(iface)[tag].(conf := conf)] else old(iface)
    {
      var dev := iface[tag].dev;
      ghost var slots := Slots(iface);
      assert slots[tag].dev in SlotDevs(slots);
      if ok {
        Reconfigure(world, next, slots, false, tag, conf);
        iface := iface[tag := iface[tag].(conf := conf)];
        assert Slots(iface) == slots[tag := Slot(dev, conf, "")];
      } else {
        Harmless(world, next, slots, {}, false, Set(dev, conf, false));
      }
      Record(Set(dev, conf, ok));
    }

    /** The two in-place branches: nothing new, or one IpcSet; success refreshes the registration. */
    method Update(d: Desired, conf: string, accepted: bool) returns (ok: bool)
      requires Valid() && d.tag in iface
      modifies this`trace, this`world, this`iface, egress`stacks, egress`dns
      ensures Valid() && old(trace) <= trace
      ensures ok == (conf == old(iface)[d.tag].conf || accepted)
      ensures iface == if ok then old(iface)[d.tag := old(iface)[d.tag].(conf := conf)] else old(iface)
      ensures conf == old(iface)[d.tag].conf ==> trace == old(trace)
      ensures ok ==> ResolverSet(d)
    {
      if conf != iface[d.tag].conf {
        Reset(d.tag, conf, accepted);
        if !accepted { return false; }
      }
      egress.SetStack(d.tag, iface[d.tag].dev, resolver(d));
      ok := true;
    }

    /** ensureLocked. A configuration that does not render leaves everything as it was. */
    method EnsureLocked(d: Desired, luck: Luck) returns (ok: bool)
      requires Valid()
      modifies this`trace, this`world, this`next, this`iface, egress`stacks, egress`dns
      ensures Valid() && old(trace) <= trace
      ensures ok == Succeeds(old(iface), d, luck)
      ensures ok ==> AppliedIn(iface, d) && ResolverSet(d)
      ensures OnlyAt(old(iface), iface, d.tag)
      // An unchanged outbound is not touched, and a running one keeps its device while its address and MTU stay.
      ensures old(AppliedIn(iface, d)) ==> iface == old(iface) && trace == old(trace)
      ensures (d.tag in old(iface) && old(iface)[d.tag].structFP == fingerprint(d))
              ==> d.tag in iface && iface[d.tag].dev == old(iface)[d.tag].dev
      ensures render(d).None? ==> iface == old(iface) && trace == old(trace)
    {
      var conf := render(d);
      if conf.None? { return false; }
      if d.tag in iface && iface[d.tag].structFP == fingerprint(d) {
        ok := Update(d, conf.value, luck.accepted);
        return;
      }
      ok := Rebuild(d, conf.value, luck);
    }

    /** The rebuild branch: a running device is closed and forgotten first. */
    method Rebuild(d: Desired, conf: string, luck: Luck) returns (ok: bool)
      requires Valid()
      modifies this`trace, this`world, this`next, this`iface, egress`stacks, egress`dns
      ensures Valid() && old(trace) <= trace
      ensures ok == (luck.made && luck.accepted && luck.up)
      ensures if ok then iface == old(iface)[d.tag := Managed(old(next), conf, fingerprint(d))] && ResolverSet(d)
              else iface == old(iface) - {d.tag}
    {
      ghost var before := iface;
      if d.tag in iface {
        Close(d.tag);
      }
      assert iface == before - {d.tag};
      Build(d, conf, luck);
      ok := luck.made && luck.accepted && luck.up;
    }

    method CloseUnwanted(want: set<string>)
      requires Valid()
      modifies this`trace, this`world, this`iface, egress`stacks, egress`dns
      ensures Valid() && old(trace) <= trace
      ensures iface == map tag | tag in old(iface) && tag in want :: old(iface)[tag]
      ensures old(iface).Keys <= want ==> trace == old(trace)
    {
      var tags := iface.Keys;
      while tags != {}
        invariant Valid() && old(trace) <= trace
        invariant tags <= iface.Keys
        invariant forall tag :: tag in iface <==> tag in old(iface) && (tag in want || tag in tags)
        invariant forall tag <- iface :: iface[tag] == old(iface)[tag]
        invariant old(iface).Keys <= want ==> trace == old(trace)
        decreases tags
      {
        var tag := PickAny(tags);
        tags := tags - {tag};
        if tag !in want {
          Close(tag);
        }
      }
    }

    ghost predicate Settled(start: map<string, Managed>, now: map<string, Managed>, desired: seq<Desired>,
                            lucks: nat -> Luck, failed: seq<bool>) {
      && |failed| <= |desired|
      && (forall j :: 0 <= j < |failed| ==> failed[j] == !Succeeds(start, desired[j], lucks(j)))
      && (forall j :: 0 <= j < |failed| && !failed[j] ==> AppliedIn(now, desired[j]))
      && (forall j :: |failed| <= j < |desired| ==> SameAt(start, now, desired[j].tag))
    }

    ghost predicate DistinctTags(desired: seq<Desired>) {
      forall i, j :: 0 <= i < j < |desired| ==> desired[i].tag != desired[j].tag
    }

    lemma SettleNext(start: map<string, Managed>, before: map<string, Managed>, after: map<string, Managed>,
                     desired: seq<Desired>, lucks: nat -> Luck, failed: seq<bool>, ok: bool)
      requires Settled(start, before, desired, lucks, failed) && |failed| < |desired| && DistinctTags(desired)
      requires var d := desired[|failed|];
               && OnlyAt(before, after, d.tag) && ok == Succeeds(before, d, lucks(|failed|)) && (ok ==> AppliedIn(after, d))
      ensures Settled(start, after, desired, lucks, failed + [!ok])
    {
      var i := |failed|;
      assert SameAt(start, before, desired[i].tag);
      forall j | 0 <= j < |desired| && j != i ensures SameAt(before, after, desired[j].tag) {
        assert desired[j].tag != desired[i].tag;
      }
      forall j | i + 1 <= j < |desired| ensures SameAt(start, after, desired[j].tag) {
        assert SameAt(start, before, desired[j].tag) && SameAt(before, after, desired[j].tag);
      }
      forall j | 0 <= j < i && !failed[j] ensures AppliedIn(after, desired[j]) {
        assert AppliedIn(before, desired[j]) && SameAt(before, after, desired[j].tag);
      }
    }

    /** Failures are those the devices answered with, each outbound on its own; the others run as desired. */
    ghost predicate Outcome(start: map<string, Managed>, now: map<string, Managed>, desired: seq<Desired>,
                            lucks: nat -> Luck, failed: seq<bool>) {
      && |failed| == |desired|
      && (forall i :: 0 <= i < |desired| ==> failed[i] == !Succeeds(start, desired[i], lucks(i)))
      && (forall i :: 0 <= i < |desired| && !failed[i] ==> AppliedIn(now, desired[i]))
    }

    lemma OutcomeOfAll(start: map<string, Managed>, kept: map<string, Managed>, now: map<string, Managed>,
                       desired: seq<Desired>, lucks: nat -> Luck, failed: seq<bool>)
      requires kept == map tag | tag in start && tag in Tags(desired) :: start[tag]
      requires Settled(kept, now, desired, lucks, failed) && |failed| == |desired|
      ensures Outcome(start, now, desired, lucks, failed)
    {
      forall i | 0 <= i < |desired| ensures failed[i] == !Succeeds(start, desired[i], lucks(i)) {
        assert desired[i].tag in Tags(desired);
        assert desired[i].tag in kept <==> desired[i].tag in start;
      }
    }

    /** Reconcile: nothing outside the desired list survives, failures are each outbound's own, an applied list costs
        no device call, and the empty list also frees the listener. */
    method Reconcile(desired: seq<Desired>, lucks: nat -> Luck, bound: bool) returns (failed: seq<bool>)
      requires Valid()
      modifies this`trace, this`world, this`next, this`iface, egress
      ensures Valid() && |failed| == |desired|
      ensures iface.Keys <= Tags(desired)
      ensures DistinctTags(desired) ==> Outcome(old(iface), iface, desired, lucks, failed)
      ensures (old(iface).Keys <= Tags(desired) && forall i :: 0 <= i < |desired| ==> AppliedIn(old(iface), desired[i]))
              ==> trace == old(trace) && iface == old(iface)
      ensures egress.listening == (desired != [] && (old(egress.listening) || bound))
    {
      ghost var before := iface;
      if desired == [] {
        StopAll();
        return [];
      }
      if !egress.listening { egress.listening := bound; }
      CloseUnwanted(Tags(desired));
      assert before.Keys <= Tags(desired) ==> iface == before;
      ghost var kept := iface;
      failed := EnsureAll(desired, lucks);
      if DistinctTags(desired) {
        OutcomeOfAll(before, kept, iface, desired, lucks, failed);
      }
    }

    method EnsureAll(desired: seq<Desired>, lucks: nat -> Luck) returns (failed: seq<bool>)
      requires Valid() && iface.Keys <= Tags(desired)
      modifies this`trace, this`world, this`next, this`iface, egress`stacks, egress`dns
      ensures Valid() && |failed| == |desired| && iface.Keys <= Tags(desired)
      ensures DistinctTags(desired) ==> Settled(old(iface), iface, desired, lucks, failed)
      ensures (forall i :: 0 <= i < |desired| ==> AppliedIn(old(iface), desired[i]))
              ==> trace == old(trace) && iface == old(iface)
    {
      failed := [];
      for i := 0 to |desired|
        invariant Valid() && |failed| == i && iface.Keys <= Tags(desired)
        invariant DistinctTags(desired) ==> Settled(old(iface), iface, desired, lucks, failed)
        invariant (forall j :: 0 <= j < |desired| ==> AppliedIn(old(iface), desired[j]))
                  ==> trace == old(trace) && iface == old(iface)
      {
        ghost var before := iface;
        var ok := EnsureLocked(desired[i], lucks(i));
        if DistinctTags(desired) {
          SettleNext(old(iface), before, iface, desired, lucks, failed, ok);
        }
        forall tag | tag in iface ensures tag in Tags(desired) {
          assert tag != desired[i].tag ==> SameAt(before, iface, tag);
        }
        failed := failed + [!ok];
      }
    }

    method Remove(tag: string)
      requires Valid()
      modifies this`trace, this`world, this`iface, egress`stacks, egress`dns
      ensures Valid() && iface == old(iface) - {tag}
    {
      if tag in iface {
        Close(tag);
      }
    }

    /** StopAll, which is also Reconcile's empty case, leaves no tag, no open device and no listener. */
    method StopAll()
      requires Valid()
      modifies this`trace, this`world, this`iface, egress
      ensures Valid() && old(trace) <= trace && (old(iface) == map[] ==> trace == old(trace))
      ensures iface == map[] && egress.stacks == map[] && egress.dns == map[] && !egress.listening
      ensures forall d: Dev :: !Live(trace, d)
    {
      CloseUnwanted({});
      egress.listening := false;
      assert iface == map[];
      assert egress.stacks.Keys == {};
      assert world.live == {};
      forall d: Dev ensures !Live(trace, d) {
        WorldMeans(trace, false, d);
      }
    }

    /** Any sequence of operations, with any outcome of any device call. */
    method RunAll(ops: seq<Op>)
      requires Valid()
      modifies this`trace, this`world, this`next, this`iface, egress
      ensures Valid()
    {
      for i := 0 to |ops|
        invariant Valid()
      {
        match ops[i] {
          case Reconcile(desired, lucks, bound) => var _ := Reconcile(desired, lucks, bound);
          case Remove(tag) => Remove(tag);
          case StopAll => StopAll();
        }
      }
    }
  }

  /** What the registry promises its readers: a tag is registered exactly when it is managed, what it is registered
      with is that tag's device, open, brought up and running the recorded configuration, and no open device lacks a
      tag. */
  lemma RegistryServesOpenDevices(m: Manager)
    requires m.Valid()
    ensures forall tag :: tag in m.egress.stacks <==> tag in m.iface
    ensures forall tag <- m.egress.stacks ::
              var d := m.egress.stacks[tag];
              d == m.iface[tag].dev && Live(m.trace, d) && Up(d, true) in m.trace
              && LastAccepted(m.trace, d) == Some(m.iface[tag].conf)
    ensures forall s, t ::
              s in m.egress.stacks && t in m.egress.stacks && m.egress.stacks[s] == m.egress.stacks[t] ==> s == t
    ensures forall d: Dev :: Live(m.trace, d) ==> d in m.egress.stacks.Values
  {
    var slots := Slots(m.iface);
    forall tag | tag in m.egress.stacks
      ensures var d := m.egress.stacks[tag];
              d == m.iface[tag].dev && Live(m.trace, d) && Up(d, true) in m.trace
              && LastAccepted(m.trace, d) == Some(m.iface[tag].conf)
    {
      assert SlotRuns(m.world, slots[tag], false);
      assert slots[tag].dev in SlotDevs(slots);
      WorldMeans(m.trace, false, m.iface[tag].dev);
    }
    forall d: Dev | Live(m.trace, d) ensures d in m.egress.stacks.Values {
      WorldMeans(m.trace, false, d);
      var tag := Owner(slots, d);
      assert m.egress.stacks[tag] == d;
    }
    forall s, t | s in m.egress.stacks && t in m.egress.stacks && m.egress.stacks[s] == m.egress.stacks[t]
      ensures s == t
    {
      assert slots[s].dev == slots[t].dev;
    }
  }
}
