/** The session table of UDPRelay (internal/amneziawgnet/relay.go): any number of concurrent Handle calls,
    one pump per published session, and Close. A step is one critical section of the table's mutex,
    or one action between two critical sections. */
module RelayTable {

  type Addr = nat
  type Sid = nat
  type Hid = nat

  /** Where a Handle call stands. */
  datatype Phase =
    | Looking(src: Addr)
    | Associating(src: Addr)
    | Publishing(src: Addr, made: Sid)
    | ClosingDuplicate(src: Addr, made: Sid, existing: Sid)
    | Spawning(src: Addr, made: Sid)
    | Sending(src: Addr, sess: Sid)

  datatype Pump = Reading(src: Addr) | Retired(src: Addr)

  datatype State = State(
    sessions: map<Addr, Sid>,
    open: set<Sid>,
    next: Sid,
    handles: map<Hid, Phase>,
    pumps: map<Sid, Pump>)

  const START := State(map[], {}, 0, map[], map[])

  datatype Step =
    | Arrive(h: Hid, src: Addr)
    | Lookup(h: Hid)
    | AssociateFails(h: Hid)
    | Associate(h: Hid)
    | Publish(h: Hid)
    | CloseDuplicate(h: Hid)
    | Spawn(h: Hid)
    | Send(h: Hid)
    | Retire(sid: Sid)
    | ClosePump(sid: Sid)
    | Close

  predicate Enabled(s: State, step: Step) {
    match step
    case Arrive(h, _) => h !in s.handles
    case Lookup(h) => h in s.handles && s.handles[h].Looking?
    case AssociateFails(h) => h in s.handles && s.handles[h].Associating?
    case Associate(h) => h in s.handles && s.handles[h].Associating?
    case Publish(h) => h in s.handles && s.handles[h].Publishing?
    case CloseDuplicate(h) => h in s.handles && s.handles[h].ClosingDuplicate?
    case Spawn(h) => h in s.handles && s.handles[h].Spawning?
    case Send(h) => h in s.handles && s.handles[h].Sending?
    case Retire(sid) => sid in s.pumps && s.pumps[sid].Reading?
    case ClosePump(sid) => sid in s.pumps && s.pumps[sid].Retired?
    case Close => true
  }

  function Move(s: State, h: Hid, p: Phase): State { s.(handles := s.handles[h := p]) }

  function Apply(s: State, step: Step): State
    requires Enabled(s, step)
  {
    match step
    case Arrive(h, src) => Move(s, h, Looking(src))
    case Lookup(h) =>
      var src := s.handles[h].src;
      Move(s, h, if src in s.sessions then Sending(src, s.sessions[src]) else Associating(src))
    case AssociateFails(h) => s.(handles := s.handles - {h})
    case Associate(h) =>
      Move(s, h, Publishing(s.handles[h].src, s.next)).(open := s.open + {s.next}, next := s.next + 1)
    case Publish(h) =>
      var Publishing(src, made) := s.handles[h];
      if src in s.sessions then Move(s, h, ClosingDuplicate(src, made, s.sessions[src]))
      else Move(s, h, Spawning(src, made)).(sessions := s.sessions[src := made])
    case CloseDuplicate(h) =>
      var ClosingDuplicate(src, made, existing) := s.handles[h];
      Move(s, h, Sending(src, existing)).(open := s.open - {made})
    case Spawn(h) =>
      var Spawning(src, made) := s.handles[h];
      Move(s, h, Sending(src, made)).(pumps := s.pumps[made := Reading(src)])
    case Send(h) => s.(handles := s.handles - {h})
    case Retire(sid) =>
      var src := s.pumps[sid].src;
      var own := src in s.sessions && s.sessions[src] == sid;
      s.(pumps := s.pumps[sid := Retired(src)], sessions := if own then s.sessions - {src} else s.sessions)
    case ClosePump(sid) => s.(pumps := s.pumps - {sid}, open := s.open - {sid})
    case Close => s.(sessions := map[], open := s.open - s.sessions.Values)
  }

  ghost predicate Runs(s: State, steps: seq<Step>)
    decreases |steps|
  {
    steps == [] || (Enabled(s, steps[0]) && Runs(Apply(s, steps[0]), steps[1..]))
  }

  ghost function Run(s: State, steps: seq<Step>): State
    requires Runs(s, steps)
    decreases |steps|
  {
    if steps == [] then s else Run(Apply(s, steps[0]), steps[1..])
  }

  // ---------------------------------------------------------------- the invariant

  /** The Handle call owns the session: it made it, and no pump runs for it yet. */
  predicate Holds(p: Phase, sid: Sid) {
    (p.Publishing? || p.ClosingDuplicate? || p.Spawning?) && p.made == sid
  }

  ghost predicate Held(s: State, sid: Sid) { exists h :: h in s.handles && Holds(s.handles[h], sid) }

  ghost predicate Spawner(s: State, src: Addr, sid: Sid) {
    exists h :: h in s.handles && s.handles[h] == Spawning(src, sid)
  }

  /** Sessions are numbered as they are made. */
  ghost predicate Born(s: State) {
    && (forall sid <- s.open :: sid < s.next)
    && (forall sid <- s.pumps :: sid < s.next)
    && (forall h: Hid, sid: Sid :: h in s.handles && Holds(s.handles[h], sid) ==> sid < s.next)
  }

  /** A session is owned by one Handle call or by its own pump, never by two of them. */
  ghost predicate OneOwner(s: State) {
    && (forall h: Hid, sid: Sid :: h in s.handles && Holds(s.handles[h], sid) ==> sid !in s.pumps)
    && (forall h: Hid, g: Hid, sid: Sid ::
          h in s.handles && g in s.handles && Holds(s.handles[h], sid) && Holds(s.handles[g], sid) ==> h == g)
  }

  /** Every published session is open, and its pump runs or is about to be started by its maker. */
  ghost predicate PublishedLive(s: State) {
    forall src <- s.sessions ::
      var sid := s.sessions[src];
      sid in s.open && PumpedOrSpawning(s, src, sid)
  }

  ghost predicate PumpedOrSpawning(s: State, src: Addr, sid: Sid) {
    (sid in s.pumps && s.pumps[sid] == Reading(src)) || Spawner(s, src, sid)
  }

  /** Every open session has an owner. */
  ghost predicate OpenOwned(s: State) {
    forall sid <- s.open :: sid in s.pumps || Held(s, sid)
  }

  /** A session not yet published is still open. */
  ghost predicate UnpublishedOpen(s: State) {
    forall h <- s.handles :: s.handles[h].Publishing? || s.handles[h].ClosingDuplicate? ==> s.handles[h].made in s.open
  }

  ghost predicate Inv(s: State) {
    Born(s) && OneOwner(s) && PublishedLive(s) && OpenOwned(s) && UnpublishedOpen(s) && LivePublished(s)
  }

  predicate Published(s: State, src: Addr, sid: Sid) { src in s.sessions && s.sessions[src] == sid }

  /** A session that is open and past publication is still in the table, until its own pump retires it. */
  ghost predicate LivePublished(s: State) {
    && (forall sid <- s.pumps :: sid in s.open && s.pumps[sid].Reading? ==> Published(s, s.pumps[sid].src, sid))
    && (forall h <- s.handles :: s.handles[h].Spawning? && s.handles[h].made in s.open
          ==> Published(s, s.handles[h].src, s.handles[h].made))
  }

  /** The only owners a published session can have. */
  lemma PublishedOwner(s: State, src: Addr)
    requires Inv(s) && src in s.sessions
    ensures var sid := s.sessions[src];
            && (forall h :: h in s.handles && Holds(s.handles[h], sid) ==> s.handles[h] == Spawning(src, sid))
            && (sid in s.pumps ==> s.pumps[sid] == Reading(src))
  {
    var sid := s.sessions[src];
    if sid !in s.pumps {
      var g :| g in s.handles && s.handles[g] == Spawning(src, sid);
      assert Holds(s.handles[g], sid);
    }
  }

  lemma BornKept(s: State, step: Step)
    requires Inv(s) && Enabled(s, step)
    ensures Born(Apply(s, step))
  {
    var t := Apply(s, step);
    if step.Spawn? {
      assert Holds(s.handles[step.h], s.handles[step.h].made);
    }
    forall h: Hid, sid: Sid | h in t.handles && Holds(t.handles[h], sid) ensures sid < t.next {
      if h in s.handles && Holds(s.handles[h], sid) {
      } else {
        assert step == Associate(h);
      }
    }
  }

  lemma OneOwnerKept(s: State, step: Step)
    requires Inv(s) && Enabled(s, step)
    ensures OneOwner(Apply(s, step))
  {
  }

  lemma OpenOwnedKept(s: State, step: Step)
    requires Inv(s) && Enabled(s, step)
    ensures OpenOwned(Apply(s, step))
  {
    var t := Apply(s, step);
    forall sid | sid in t.open ensures sid in t.pumps || Held(t, sid) {
      if sid in s.open && sid !in s.pumps {
        var h :| h in s.handles && Holds(s.handles[h], sid);
        assert t.handles[h] == t.handles[h];
        if sid !in t.pumps {
          assert h in t.handles && Holds(t.handles[h], sid);
        }
      } else if sid !in s.open {
        assert step.Associate? && Holds(t.handles[step.h], sid);
      }
    }
  }

  lemma UnpublishedOpenKept(s: State, step: Step)
    requires Inv(s) && Enabled(s, step)
    ensures UnpublishedOpen(Apply(s, step))
  {
    var t := Apply(s, step);
    forall h | h in t.handles && (t.handles[h].Publishing? || t.handles[h].ClosingDuplicate?)
      ensures t.handles[h].made in t.open
    {
      if h in s.handles {
        if step.CloseDuplicate? { assert Holds(s.handles[step.h], s.handles[step.h].made); }
        if s.handles[h].Publishing? || s.handles[h].ClosingDuplicate? {
          assert Holds(s.handles[h], s.handles[h].made);
          if step.Close? && t.handles[h].made in s.sessions.Values {
            var src :| src in s.sessions && s.sessions[src] == t.handles[h].made;
            PublishedOwner(s, src);
            assert false;
          }
        }
      }
    }
  }

  lemma PublishedLiveKept(s: State, step: Step)
    requires Inv(s) && Enabled(s, step)
    ensures PublishedLive(Apply(s, step))
  {
    var t := Apply(s, step);
    forall src | src in t.sessions
      ensures t.sessions[src] in t.open
      ensures PumpedOrSpawning(t, src, t.sessions[src])
    {
      var sid := t.sessions[src];
      if step.CloseDuplicate? || step.Publish? || step.Spawn? {
        assert Holds(s.handles[step.h], s.handles[step.h].made);
      }
      if src in s.sessions && s.sessions[src] == sid {
        PublishedOwner(s, src);
        assert sid in t.open;
        if Spawner(s, src, sid) {
          var h :| h in s.handles && s.handles[h] == Spawning(src, sid);
          assert step == Spawn(h) || t.handles[h] == Spawning(src, sid);
        }
      } else {
        assert step.Publish? && t.handles[step.h] == Spawning(src, sid);
      }
    }
  }

  lemma LivePublishedKept(s: State, step: Step)
    requires Inv(s) && Enabled(s, step)
    ensures LivePublished(Apply(s, step))
  {
    var t := Apply(s, step);
    if step.Spawn? {
      assert Holds(s.handles[step.h], s.handles[step.h].made);
    }
    forall h | h in t.handles && t.handles[h].Spawning? && t.handles[h].made in t.open
      ensures Published(t, t.handles[h].src, t.handles[h].made)
    {
      if h in s.handles && s.handles[h] == t.handles[h] {
        assert Holds(s.handles[h], s.handles[h].made);
        assert Published(s, s.handles[h].src, s.handles[h].made);
      }
    }
    forall sid | sid in t.pumps && sid in t.open && t.pumps[sid].Reading?
      ensures Published(t, t.pumps[sid].src, sid)
    {
      if sid in s.pumps {
        assert Published(s, s.pumps[sid].src, sid);
      }
    }
  }

  lemma StepKeepsInv(s: State, step: Step)
    requires Inv(s) && Enabled(s, step)
    ensures Inv(Apply(s, step))
  {
    BornKept(s, step);
    OneOwnerKept(s, step);
    OpenOwnedKept(s, step);
    UnpublishedOpenKept(s, step);
    PublishedLiveKept(s, step);
    LivePublishedKept(s, step);
  }

  lemma {:induction false} RunKeepsInv(s: State, steps: seq<Step>)
    requires Inv(s) && Runs(s, steps)
    ensures Inv(Run(s, steps))
    decreases |steps|
  {
    if steps != [] {
      StepKeepsInv(s, steps[0]);
      RunKeepsInv(Apply(s, steps[0]), steps[1..]);
    }
  }

  // ---------------------------------------------------------------- what holds over every run

  /** Over every interleaving: published sessions are open and no two sources share one; an open session is
      published, held by the one Handle call that made it, or held by its own pump that has just retired it. */
  lemma EveryRun(steps: seq<Step>)
    requires Runs(START, steps)
    ensures var s := Run(START, steps);
            && (forall src <- s.sessions :: s.sessions[src] in s.open)
            && (forall a: Addr, b: Addr :: a in s.sessions && b in s.sessions && s.sessions[a] == s.sessions[b] ==> a == b)
            && (forall sid <- s.open ::
                  sid in s.sessions.Values || Held(s, sid) || (sid in s.pumps && s.pumps[sid].Retired?))
            && (forall h: Hid, g: Hid, sid: Sid ::
                  h in s.handles && g in s.handles && Holds(s.handles[h], sid) && Holds(s.handles[g], sid) ==> h == g)
  {
    RunKeepsInv(START, steps);
    var s := Run(START, steps);
    forall a, b | a in s.sessions && b in s.sessions && s.sessions[a] == s.sessions[b] ensures a == b {
      PublishedOwner(s, a);
      PublishedOwner(s, b);
    }
    forall sid | sid in s.open && sid in s.pumps && s.pumps[sid].Reading? ensures sid in s.sessions.Values {
      assert Published(s, s.pumps[sid].src, sid);
    }
  }

  /** A retiring pump unpublishes its own session everywhere and no other session anywhere. */
  lemma RetireOnlyOwn(steps: seq<Step>, sid: Sid)
    requires Runs(START, steps) && Enabled(Run(START, steps), Retire(sid))
    ensures var s := Run(START, steps); var t := Apply(s, Retire(sid));
            forall src :: (src in t.sessions <==> src in s.sessions && s.sessions[src] != sid)
                       && (src in t.sessions ==> t.sessions[src] == s.sessions[src])
  {
    RunKeepsInv(START, steps);
    var s := Run(START, steps);
    forall src | src in s.sessions && s.sessions[src] == sid ensures src == s.pumps[sid].src {
      PublishedOwner(s, src);
    }
  }

  /** Once no Handle call and no pump is left, nothing is open and nothing is published. */
  lemma QuiescentIsEmpty(steps: seq<Step>)
    requires Runs(START, steps)
    requires Run(START, steps).handles == map[] && Run(START, steps).pumps == map[]
    ensures Run(START, steps).open == {} && Run(START, steps).sessions == map[]
  {
    RunKeepsInv(START, steps);
    var s := Run(START, steps);
    assert forall sid <- s.open :: sid in s.pumps || Held(s, sid);
  }

  // ---------------------------------------------------------------- what Close leaves behind

  predicate NoArrival(steps: seq<Step>) { forall step <- steps :: !step.Arrive? }

  /** A Handle call that may still publish a session. */
  predicate MayPublish(p: Phase) { p.Looking? || p.Associating? || p.Publishing? }

  predicate NoPublisher(s: State) { forall h <- s.handles :: !MayPublish(s.handles[h]) }

  lemma {:induction false} StaysUnpublished(s: State, steps: seq<Step>)
    requires Runs(s, steps) && NoArrival(steps)
    requires s.sessions == map[] && NoPublisher(s)
    ensures var t := Run(s, steps); t.sessions == map[] && t.open <= s.open && (s.handles == map[] ==> t.handles == map[])
    decreases |steps|
  {
    if steps != [] {
      assert steps[0] in steps;
      var t := Apply(s, steps[0]);
      assert t.sessions == map[] && NoPublisher(t) && t.open <= s.open;
      StaysUnpublished(t, steps[1..]);
    }
  }

  /** Some continuation without new Handle calls leaves a session published after Close. */
  ghost predicate CanRepublish(s: State) {
    exists steps :: Runs(s, steps) && NoArrival(steps) && Run(s, steps).sessions != map[]
  }

  lemma RepublishSteps(s: State, h: Hid) returns (steps: seq<Step>)
    requires s.sessions == map[] && h in s.handles && MayPublish(s.handles[h])
    ensures Runs(s, steps) && NoArrival(steps) && Run(s, steps).sessions != map[]
  {
    match s.handles[h] {
      case Publishing(src, made) =>
        steps := [Publish(h)];
        assert Run(Apply(s, Publish(h)), []).sessions[src] == made;
      case Associating(src) =>
        var rest := RepublishSteps2(Apply(s, Associate(h)), h);
        steps := [Associate(h)] + rest;
        assert steps[1..] == rest;
      case Looking(src) =>
        var t := Apply(s, Lookup(h));
        var rest := RepublishSteps2(Apply(t, Associate(h)), h);
        var mid := [Associate(h)] + rest;
        assert mid[1..] == rest;
        assert Runs(t, mid) && Run(t, mid).sessions != map[];
        steps := [Lookup(h)] + mid;
        assert steps[1..] == mid;
    }
  }

  lemma RepublishSteps2(s: State, h: Hid) returns (steps: seq<Step>)
    requires s.sessions == map[] && h in s.handles && s.handles[h].Publishing?
    ensures Runs(s, steps) && NoArrival(steps) && Run(s, steps).sessions != map[]
  {
    steps := [Publish(h)];
    assert steps[1..] == [];
    assert Run(Apply(s, Publish(h)), []).sessions[s.handles[h].src] == s.handles[h].made;
  }

  /** After Close, a session can be published again without any new packet exactly when
      a Handle call is in flight that has not published yet. */
  lemma CloseIsFinalIff(steps: seq<Step>)
    requires Runs(START, steps)
    ensures var s := Apply(Run(START, steps), Close);
            CanRepublish(s) <==> !NoPublisher(s)
  {
    var s := Apply(Run(START, steps), Close);
    if !NoPublisher(s) {
      var h :| h in s.handles && MayPublish(s.handles[h]);
      var more := RepublishSteps(s, h);
    } else if CanRepublish(s) {
      var more :| Runs(s, more) && NoArrival(more) && Run(s, more).sessions != map[];
      StaysUnpublished(s, more);
    }
  }

  /** And it happens: a packet arrives, Close runs, and its Handle call publishes afterwards. */
  lemma ClosedTableRefills(h: Hid, src: Addr)
    ensures Runs(START, [Arrive(h, src)]) && CanRepublish(Apply(Run(START, [Arrive(h, src)]), Close))
  {
    var steps := [Arrive(h, src)];
    assert steps[1..] == [];
    assert Run(START, steps) == Apply(START, steps[0]);
    CloseIsFinalIff(steps);
    assert MayPublish(Apply(Run(START, steps), Close).handles[h]);
  }

  /** With no Handle call in flight or later, Close leaves open only sessions whose pump had already retired,
      and none once the pumps are gone. */
  lemma CloseClosesAll(before: seq<Step>, after: seq<Step>)
    requires Runs(START, before) && Run(START, before).handles == map[]
    requires var s := Apply(Run(START, before), Close); Runs(s, after) && NoArrival(after)
    ensures var s := Run(START, before); var t := Run(Apply(s, Close), after);
            && t.sessions == map[]
            && (forall sid <- t.open :: sid in s.pumps && s.pumps[sid].Retired?)
            && (t.pumps == map[] ==> t.open == {})
  {
    var s := Run(START, before);
    var c := Apply(s, Close);
    RunKeepsInv(START, before);
    StepKeepsInv(s, Close);
    StaysUnpublished(c, after);
    RunKeepsInv(c, after);
    var t := Run(c, after);
    forall sid | sid in t.open ensures sid in s.pumps && s.pumps[sid].Retired? {
      assert sid in c.open && LivePublished(c);
    }
  }

  // ---------------------------------------------------------------- where the packets go

  /** The pairs of source and session that the table has held at some point of a run. */
  ghost function History(s: State, steps: seq<Step>): set<(Addr, Sid)>
    requires Runs(s, steps)
    decreases |steps|
  {
    s.sessions.Items + if steps == [] then {} else History(Apply(s, steps[0]), steps[1..])
  }

  /** The session a Handle call sends its packet on, or will. */
  ghost predicate SendsFrom(s: State, pairs: set<(Addr, Sid)>) {
    forall h: Hid | h in s.handles ::
      match s.handles[h]
      case Sending(src, sess) => (src, sess) in pairs
      case ClosingDuplicate(src, _, existing) => (src, existing) in pairs
      case Spawning(src, made) => (src, made) in pairs
      case _ => true
  }

  lemma SendsNext(s: State, step: Step, pairs: set<(Addr, Sid)>)
    requires Enabled(s, step) && SendsFrom(s, pairs) && s.sessions.Items <= pairs
    ensures SendsFrom(Apply(s, step), pairs + Apply(s, step).sessions.Items)
  {
    if step.Lookup? || step.Publish? {
      var src := s.handles[step.h].src;
      if src in s.sessions {
        assert (src, s.sessions[src]) in s.sessions.Items;
      } else if step.Publish? {
        assert (src, s.handles[step.h].made) in Apply(s, step).sessions.Items;
      }
    }
  }

  lemma {:induction false} RunSends(s: State, steps: seq<Step>, past: set<(Addr, Sid)>)
    requires Runs(s, steps) && SendsFrom(s, past + s.sessions.Items)
    ensures SendsFrom(Run(s, steps), past + History(s, steps))
    decreases |steps|
  {
    if steps == [] {
      assert past + s.sessions.Items == past + History(s, steps);
    } else {
      var t := Apply(s, steps[0]);
      SendsNext(s, steps[0], past + s.sessions.Items);
      RunSends(t, steps[1..], past + s.sessions.Items);
      assert past + s.sessions.Items + History(t, steps[1..]) == past + History(s, steps);
    }
  }

  /** A packet is only ever sent on a session that was published for its own source, never on the loser of a race. */
  lemma SendsPublished(steps: seq<Step>, h: Hid)
    requires Runs(START, steps) && h in Run(START, steps).handles && Run(START, steps).handles[h].Sending?
    ensures var p := Run(START, steps).handles[h]; (p.src, p.sess) in History(START, steps)
  {
    RunSends(START, steps, {});
    assert {} + History(START, steps) == History(START, steps);
  }

  ghost predicate PublishedThroughout(s: State, steps: seq<Step>, src: Addr, sid: Sid)
    requires Runs(s, steps)
    decreases |steps|
  {
    Published(s, src, sid) && (steps != [] ==> PublishedThroughout(Apply(s, steps[0]), steps[1..], src, sid))
  }

  predicate Reuses(s: State, h: Hid, src: Addr, sid: Sid) {
    h in s.handles && s.handles[h].src == src ==> s.handles[h].Looking? || s.handles[h] == Sending(src, sid)
  }

  /** While a session stays published for a source, a packet of that source that arrives or is being looked up is sent
      on that very session, and no other session is made for it. */
  lemma {:induction false} PublishedIsReused(s: State, steps: seq<Step>, h: Hid, src: Addr, sid: Sid)
    requires Runs(s, steps) && PublishedThroughout(s, steps, src, sid) && Reuses(s, h, src, sid)
    ensures Reuses(Run(s, steps), h, src, sid)
    decreases |steps|
  {
    if steps != [] {
      PublishedIsReused(Apply(s, steps[0]), steps[1..], h, src, sid);
    }
  }
}
