/** The manager of kernel AWG interfaces (internal/awg/manager.go): ensureLocked chooses between leaving an interface
    alone, re-syncing its peers in place, and restarting it. A restart kills every session of the inbound. Every call
    that can fail takes its outcome as an argument, Stop included, whose error the manager ignores. */
module AwgManager {
  import opened Text
  import opened ConfModel
  import opened ConfRender
  import opened ConfFingerprint
  import opened Traffic

  datatype Managed = Managed(tag: string, fingerprint: string, peerFP: string, peers: seq<Peer>, base: Baseline)

  /** What the interface was started for, and the peers last applied to it. */
  datatype Applied = Applied(inst: Instance, host: Host, peers: seq<Peer>)

  datatype Call =
    | Stop(id: int, ok: bool)
    | Start(id: int, conf: string, ok: bool)
    | Sync(id: int, conf: string, ok: bool)

  /** What the environment answers. */
  datatype Env = Env(tproxyRefused: bool, running: bool, stopped: bool, wrote: bool, started: bool, synced: bool)

  datatype Wanted = Wanted(id: int, tag: string, inst: Instance, host: Host)

  datatype Op =
    | Ensure(want: Wanted, env: Env)
    | Reconcile(desired: seq<Wanted>, envs: nat -> Env, stops: int -> bool)
    | Remove(id: int, stopped: bool)
    | StopAll(stops: int -> bool)

  // ---------------------------------------------------------------- what the calls amount to

  /** The interfaces that are up, and those of them whose last Stop failed. */
  datatype World = World(up: set<int>, leaked: set<int>)

  function After(w: World, c: Call): World {
    match c
    case Start(id, _, ok) => if ok then World(w.up + {id}, w.leaked - {id}) else w
    case Stop(id, ok) =>
      if ok then World(w.up - {id}, w.leaked - {id}) else World(w.up, if id in w.up then w.leaked + {id} else w.leaked)
    case Sync(_, _, _) => w
  }

  function Replay(calls: seq<Call>): World {
    if calls == [] then World({}, {}) else After(Replay(calls[..|calls| - 1]), calls[|calls| - 1])
  }

  lemma ReplaySnoc(calls: seq<Call>, c: Call)
    ensures Replay(calls + [c]) == After(Replay(calls), c)
  {
    assert (calls + [c])[..|calls|] == calls;
  }

  predicate Starts(c: Call, id: int) { c.Start? && c.id == id && c.ok }
  predicate Stops(c: Call, id: int) { c.Stop? && c.id == id && c.ok }
  predicate FailsToStop(c: Call, id: int) { c.Stop? && c.id == id && !c.ok }

  /** Started, and not stopped since. */
  ghost predicate IsUp(calls: seq<Call>, id: int) {
    exists i :: 0 <= i < |calls| && Starts(calls[i], id) && forall j :: i < j < |calls| ==> !Stops(calls[j], id)
  }

  /** A Stop failed, and neither a Stop nor a Start has succeeded since. */
  ghost predicate StoppedInVain(calls: seq<Call>, id: int) {
    exists i :: 0 <= i < |calls| && FailsToStop(calls[i], id)
                && forall j :: i < j < |calls| ==> !Stops(calls[j], id) && !Starts(calls[j], id)
  }

  lemma IsUpSnoc(calls: seq<Call>, c: Call, id: int)
    ensures IsUp(calls + [c], id) <==> Starts(c, id) || (IsUp(calls, id) && !Stops(c, id))
  {
    var more := calls + [c];
    assert more[|calls|] == c;
    if IsUp(calls, id) && !Stops(c, id) {
      var i :| 0 <= i < |calls| && Starts(calls[i], id) && forall j :: i < j < |calls| ==> !Stops(calls[j], id);
      assert Starts(more[i], id);
    }
    if IsUp(more, id) && !Starts(c, id) {
      var i :| 0 <= i < |more| && Starts(more[i], id) && forall j :: i < j < |more| ==> !Stops(more[j], id);
      assert i < |calls| && Starts(calls[i], id);
      assert forall j :: i < j < |calls| ==> calls[j] == more[j];
    }
  }

  lemma InVainSnoc(calls: seq<Call>, c: Call, id: int)
    ensures StoppedInVain(calls + [c], id)
       <==> FailsToStop(c, id) || (StoppedInVain(calls, id) && !Stops(c, id) && !Starts(c, id))
  {
    var more := calls + [c];
    assert more[|calls|] == c;
    if StoppedInVain(calls, id) && !Stops(c, id) && !Starts(c, id) {
      var i :| 0 <= i < |calls| && FailsToStop(calls[i], id)
               && forall j :: i < j < |calls| ==> !Stops(calls[j], id) && !Starts(calls[j], id);
      assert FailsToStop(more[i], id);
    }
    if StoppedInVain(more, id) && !FailsToStop(c, id) {
      var i :| 0 <= i < |more| && FailsToStop(more[i], id)
               && forall j :: i < j < |more| ==> !Stops(more[j], id) && !Starts(more[j], id);
      assert i < |calls| && FailsToStop(calls[i], id);
      assert forall j :: i < j < |calls| ==> calls[j] == more[j];
    }
  }

  lemma {:induction false} ReplayMeans(calls: seq<Call>, id: int)
    ensures id in Replay(calls).up <==> IsUp(calls, id)
    ensures id in Replay(calls).leaked <==> IsUp(calls, id) && StoppedInVain(calls, id)
  {
    if calls != [] {
      var n := |calls| - 1;
      ReplayMeans(calls[..n], id);
      assert calls == calls[..n] + [calls[n]];
      IsUpSnoc(calls[..n], calls[n], id);
      InVainSnoc(calls[..n], calls[n], id);
    }
  }

  // ---------------------------------------------------------------- bookkeeping

  ghost predicate Faithful(m: Managed, a: Applied) {
    && m.fingerprint == DeviceFingerprint(Render(a.inst, a.host))
    && m.peerFP == PeerFingerprint(a.peers)
    && FlagRedundant(m.base)
  }

  ghost predicate AllFaithful(procs: map<int, Managed>, applied: map<int, Applied>) {
    applied.Keys == procs.Keys && forall id <- procs :: Faithful(procs[id], applied[id])
  }

  lemma FaithfulPut(procs: map<int, Managed>, applied: map<int, Applied>, id: int, m: Managed, a: Applied)
    requires AllFaithful(procs, applied) && Faithful(m, a)
    ensures AllFaithful(procs[id := m], applied[id := a])
  {
    var more, all := procs[id := m], applied[id := a];
    forall k | k in more ensures Faithful(more[k], all[k]) {
      if k != id { assert Faithful(procs[k], applied[k]); }
    }
  }

  lemma FaithfulDrop(procs: map<int, Managed>, applied: map<int, Applied>, id: int)
    requires AllFaithful(procs, applied)
    ensures AllFaithful(procs - {id}, applied - {id})
  {
    forall k | k in procs - {id} ensures Faithful((procs - {id})[k], (applied - {id})[k]) {
      assert Faithful(procs[k], applied[k]);
    }
  }

  /** Every interface that is up is managed, or is one the manager failed to stop. */
  ghost predicate Accounted(w: World, ids: set<int>) { w.up == ids + w.leaked && ids !! w.leaked }

  ghost predicate OthersKept<V>(a: map<int, V>, b: map<int, V>, id: int) {
    forall k :: k != id ==> (k in a <==> k in b) && (k in a ==> a[k] == b[k])
  }

  lemma SameEverywhere<V>(a: map<int, V>, b: map<int, V>, id: int)
    requires OthersKept(a, b, id) && id in a && id in b && a[id] == b[id]
    ensures a == b
  {
    forall k ensures k in a <==> k in b {
      if k != id { assert k in a <==> k in b; }
    }
    assert a.Keys == b.Keys;
    forall k | k in a ensures a[k] == b[k] {
      if k != id { assert k in a ==> a[k] == b[k]; }
    }
  }

  // ---------------------------------------------------------------- what one desired entry comes to

  function WantedIds(desired: seq<Wanted>): set<int> { set w <- desired :: w.id }

  predicate DistinctIds(desired: seq<Wanted>) {
    forall i, j :: 0 <= i < j < |desired| ==> desired[i].id != desired[j].id
  }

  /** The interface is up with this very device section. */
  predicate StaysIn(procs: map<int, Managed>, w: Wanted, env: Env) {
    w.id in procs && procs[w.id].fingerprint == DeviceFingerprint(Render(w.inst, w.host)) && env.running
  }

  /** What is managed under the id is what is wanted. */
  predicate Serves(procs: map<int, Managed>, w: Wanted) {
    && w.id in procs && procs[w.id].fingerprint == DeviceFingerprint(Render(w.inst, w.host))
    && procs[w.id].peerFP == PeerFingerprint(w.inst.peers) && procs[w.id].peers == w.inst.peers
    && procs[w.id].tag == w.tag
  }

  predicate Succeeds(procs: map<int, Managed>, w: Wanted, env: Env) {
    && !env.tproxyRefused
    && if StaysIn(procs, w, env) then procs[w.id].peerFP == PeerFingerprint(w.inst.peers) || env.synced
       else env.wrote && env.started
  }

  /** Whether the id is managed afterwards: a refused entry changes nothing, an interface that stays is managed even
      when its sync fails, and any other was written and started. */
  predicate ManagedAfter(procs: map<int, Managed>, w: Wanted, env: Env) {
    if env.tproxyRefused then w.id in procs else StaysIn(procs, w, env) || (env.wrote && env.started)
  }

  /** Every entry is served, and its interface is running. */
  ghost predicate AllRunning(procs: map<int, Managed>, desired: seq<Wanted>, envs: nat -> Env) {
    forall i :: 0 <= i < |desired| ==> Serves(procs, desired[i]) && envs(i).running && !envs(i).tproxyRefused
  }

  predicate SameAt(a: map<int, Managed>, b: map<int, Managed>, id: int) {
    (id in a <==> id in b) && (id in a ==> a[id] == b[id])
  }

  /** The first |failed| entries are settled, the others are as at the start. */
  ghost predicate Settled(start: map<int, Managed>, now: map<int, Managed>, desired: seq<Wanted>, envs: nat -> Env,
                          failed: seq<bool>) {
    && |failed| <= |desired|
    && (forall j :: 0 <= j < |failed| ==> failed[j] == !Succeeds(start, desired[j], envs(j)))
    && (forall j :: 0 <= j < |failed| ==> (desired[j].id in now <==> ManagedAfter(start, desired[j], envs(j))))
    && (forall j :: 0 <= j < |failed| && !failed[j] ==> Serves(now, desired[j]))
    && (forall j :: |failed| <= j < |desired| ==> SameAt(start, now, desired[j].id))
  }

  lemma SettleNext(start: map<int, Managed>, before: map<int, Managed>, after: map<int, Managed>, desired: seq<Wanted>,
                   envs: nat -> Env, failed: seq<bool>, ok: bool)
    requires Settled(start, before, desired, envs, failed) && |failed| < |desired| && DistinctIds(desired)
    requires var w, env := desired[|failed|], envs(|failed|);
             && OthersKept(before, after, w.id) && ok == Succeeds(before, w, env) && (ok ==> Serves(after, w))
             && (w.id in after <==> ManagedAfter(before, w, env))
    ensures Settled(start, after, desired, envs, failed + [!ok])
  {
    var i := |failed|;
    assert SameAt(start, before, desired[i].id);
    forall j | 0 <= j < |desired| && j != i ensures SameAt(before, after, desired[j].id) {
      assert desired[j].id != desired[i].id;
    }
    forall j | i < j < |desired| ensures SameAt(start, after, desired[j].id) {
      assert SameAt(start, before, desired[j].id) && SameAt(before, after, desired[j].id);
    }
    forall j | 0 <= j < i ensures desired[j].id in after <==> ManagedAfter(start, desired[j], envs(j)) {
      assert SameAt(before, after, desired[j].id);
    }
    forall j | 0 <= j < i && !failed[j] ensures Serves(after, desired[j]) {
      assert Serves(before, desired[j]) && SameAt(before, after, desired[j].id);
    }
  }

  lemma OnlyWanted(before: map<int, Managed>, after: map<int, Managed>, desired: seq<Wanted>, i: nat)
    requires i < |desired| && OthersKept(before, after, desired[i].id) && before.Keys <= WantedIds(desired)
    ensures after.Keys <= WantedIds(desired)
  {
    assert desired[i].id in WantedIds(desired);
    forall id | id in after ensures id in WantedIds(desired) {
      assert id != desired[i].id ==> id in before;
    }
  }

  /** What was forgotten for not being wanted does not bear on what is. */
  lemma KeptOutcome(before: map<int, Managed>, kept: map<int, Managed>, desired: seq<Wanted>, envs: nat -> Env)
    requires kept.Keys == before.Keys * WantedIds(desired) && forall id <- kept :: kept[id] == before[id]
    ensures forall i :: 0 <= i < |desired| ==>
              && Succeeds(kept, desired[i], envs(i)) == Succeeds(before, desired[i], envs(i))
              && ManagedAfter(kept, desired[i], envs(i)) == ManagedAfter(before, desired[i], envs(i))
  {
    forall i | 0 <= i < |desired| ensures SameAt(kept, before, desired[i].id) {
      assert desired[i].id in WantedIds(desired);
    }
  }

  /** An entry is dropped if present, then put back if all goes well. */
  lemma DropThenPut<V>(a: map<int, V>, rest: map<int, V>, b: map<int, V>, id: int, v: V, put: bool)
    requires rest == (if id in a then a - {id} else a) && b == (if put then rest[id := v] else rest)
    ensures b == (if put then a[id := v] else a - {id})
    ensures OthersKept(a, b, id)
  {
  }

  lemma PutTwice<V>(a: map<int, V>, b: map<int, V>, c: map<int, V>, id: int)
    requires id in b && b == a[id := b[id]] && id in c && c == b[id := c[id]]
    ensures c == a[id := c[id]]
  {
  }

  class Manager {
    var procs: map<int, Managed>
    ghost var calls: seq<Call>
    ghost var world: World
    ghost var applied: map<int, Applied>

    ghost predicate Valid()
      reads this
    {
      AllFaithful(procs, applied) && world == Replay(calls) && Accounted(world, procs.Keys)
    }

    constructor ()
      ensures Valid() && procs == map[] && calls == []
    {
      procs, calls, world, applied := map[], [], World({}, {}), map[];
    }

    ghost method Record(c: Call)
      requires world == Replay(calls)
      modifies this`calls, this`world
      ensures world == Replay(calls) && calls == old(calls) + [c] && world == After(old(world), c)
    {
      ReplaySnoc(calls, c);
      calls, world := calls + [c], After(world, c);
    }

    /** Stop and delete: the entry goes whether or not the interface does. */
    method Forget(id: int, stopped: bool)
      requires Valid() && id in procs
      modifies this
      ensures Valid() && procs == old(procs) - {id} && applied == old(applied) - {id}
      ensures calls == old(calls) + [Stop(id, stopped)]
    {
      FaithfulDrop(procs, applied, id);
      Record(Stop(id, stopped));
      procs, applied := procs - {id}, applied - {id};
      assert procs.Keys == old(procs).Keys - {id};
    }

    /** The running interface of this id may stay up: nothing but peers changed since it was started. */
    ghost predicate OnlyPeersChanged(id: int, inst: Instance, host: Host)
      reads this
    {
      id in applied && inst == applied[id].inst.(peers := inst.peers) && host == applied[id].host
    }

    /** The interface is up with this very device section. */
    predicate Stays(id: int, inst: Instance, host: Host, env: Env)
      reads this
    {
      id in procs && procs[id].fingerprint == DeviceFingerprint(Render(inst, host)) && env.running
    }

    method EnsureLocked(id: int, tag: string, inst: Instance, host: Host, env: Env) returns (ok: bool)
      requires Valid()
      modifies this
      ensures Valid()
      ensures OthersKept(old(procs), procs, id)
      ensures env.tproxyRefused ==> !ok && procs == old(procs) && calls == old(calls) && applied == old(applied)
      // An interface that stays sees at most a sync, and only if its peers changed; one that does not is stopped
      // before it is started again, and is forgotten if it cannot be.
      ensures !env.tproxyRefused && old(Stays(id, inst, host, env)) ==>
                && ok == (PeerFingerprint(inst.peers) == old(procs)[id].peerFP || env.synced)
                && calls == old(calls) + (if PeerFingerprint(inst.peers) == old(procs)[id].peerFP then []
                                          else [Sync(id, Render(inst, host), env.synced)])
                && id in procs && applied[id].inst == old(applied)[id].inst && applied[id].host == old(applied)[id].host
                && applied[id].peers == (if ok && calls != old(calls) then inst.peers else old(applied)[id].peers)
      ensures !env.tproxyRefused && !old(Stays(id, inst, host, env)) ==>
                && ok == (env.wrote && env.started) && (id in procs <==> ok)
                && calls == old(calls) + (if id in old(procs) then [Stop(id, env.stopped)] else [])
                            + (if env.wrote then [Start(id, Render(inst, host), env.started)] else [])
      // An interface that is down is never left at that: success means it was started again.
      ensures ok && !env.running ==> calls != old(calls) && calls[|calls| - 1] == Start(id, Render(inst, host), true)
      // A sync that failed is due again: the recorded peers are still the old ones, and no baseline was lost.
      ensures id in procs && !ok ==>
                id in old(procs) && procs[id].peerFP == old(procs)[id].peerFP && procs[id].base == old(procs)[id].base
      // Success leaves the interface running what was asked, with the traffic baseline blanked if anything moved.
      ensures ok ==> id in procs && procs[id].fingerprint == DeviceFingerprint(Render(inst, host))
                     && procs[id].peerFP == PeerFingerprint(inst.peers) && procs[id].tag == tag
                     && procs[id].peers == inst.peers
                     && if calls != old(calls) then procs[id].base == BLANK
                        else id in old(procs) && procs[id].base == old(procs)[id].base
    {
      if env.tproxyRefused { return false; }
      var conf := RenderServerConf(inst, host);
      var fp := DeviceFingerprint(conf);
      var peerFP := ComputePeerFingerprint(inst.peers);
      if id in procs && procs[id].fingerprint == fp && env.running {
        ok := Refresh(id, tag, inst, conf, peerFP, env);
        return;
      }
      ok := Restart(id, Managed(tag, fp, peerFP, inst.peers, BLANK), conf, env, Applied(inst, host, inst.peers));
    }

    /** A peer edit on a running interface never restarts it, whether or not the sync succeeds; and over fields
        without '|' the peers are synced exactly when they changed. */
    method EditPeers(id: int, tag: string, inst: Instance, host: Host, env: Env) returns (ok: bool)
      requires Valid() && HooksOnOneLine(host) && OnlyPeersChanged(id, inst, host)
      requires env.running && !env.tproxyRefused
      modifies this
      ensures Valid() && id in procs && applied[id].inst == old(applied)[id].inst
      ensures calls == old(calls) || calls == old(calls) + [Sync(id, Render(inst, host), env.synced)]
      ensures BarFree(inst.peers) && BarFree(old(applied)[id].peers) ==>
                && (calls == old(calls) <==> inst.peers == old(applied)[id].peers)
                && (ok ==> applied[id].peers == inst.peers)
    {
      ghost var was := applied[id];
      assert Faithful(procs[id], was);
      PeersDoNotMoveFingerprint(was.inst, inst.peers, host);
      if BarFree(inst.peers) && BarFree(was.peers) && PeerFingerprint(inst.peers) == PeerFingerprint(was.peers) {
        PeerFingerprintInjective(inst.peers, was.peers);
      }
      ok := EnsureLocked(id, tag, inst, host, env);
    }

    /** The restart branch: a start that fails leaves the inbound without an interface. */
    method Restart(id: int, next: Managed, conf: string, env: Env, ghost a: Applied) returns (ok: bool)
      requires Valid() && Faithful(next, a)
      modifies this
      ensures Valid() && ok == (env.wrote && env.started)
      ensures calls == old(calls) + (if id in old(procs) then [Stop(id, env.stopped)] else [])
                       + (if env.wrote then [Start(id, conf, env.started)] else [])
      ensures procs == if ok then old(procs)[id := next] else old(procs) - {id}
      ensures OthersKept(old(procs), procs, id)
      ensures applied == if ok then old(applied)[id := a] else old(applied) - {id}
    {
      if id in procs {
        Forget(id, env.stopped);
      }
      ghost var rest, restApplied := procs, applied;
      ok := Launch(id, next, conf, env, a);
      DropThenPut(old(procs), rest, procs, id, next, ok);
      DropThenPut(old(applied), restApplied, applied, id, a, ok);
    }

    /** Write the file and bring the interface up. */
    method Launch(id: int, next: Managed, conf: string, env: Env, ghost a: Applied) returns (ok: bool)
      requires Valid() && Faithful(next, a) && id !in procs
      modifies this
      ensures Valid() && ok == (env.wrote && env.started)
      ensures calls == old(calls) + (if env.wrote then [Start(id, conf, env.started)] else [])
      ensures procs == if ok then old(procs)[id := next] else old(procs)
      ensures applied == if ok then old(applied)[id := a] else old(applied)
    {
      if !env.wrote { return false; }
      Record(Start(id, conf, env.started));
      if !env.started { return false; }
      FaithfulPut(procs, applied, id, next, a);
      procs, applied := procs[id := next], applied[id := a];
      assert procs.Keys == old(procs).Keys + {id};
      ok := true;
    }

    /** The running branch. */
    method Refresh(id: int, tag: string, inst: Instance, conf: string, peerFP: string, env: Env) returns (ok: bool)
      requires Valid() && id in procs && peerFP == PeerFingerprint(inst.peers)
      modifies this
      ensures Valid()
      ensures ok == (peerFP == old(procs)[id].peerFP || env.synced)
      ensures calls == if peerFP == old(procs)[id].peerFP then old(calls) else old(calls) + [Sync(id, conf, env.synced)]
      ensures id in procs && id in applied && OthersKept(old(procs), procs, id)
      ensures procs == old(procs)[id := procs[id]] && applied == old(applied)[id := applied[id]]
      ensures var cur := old(procs)[id].(tag := tag, peers := inst.peers);
              procs[id] == if calls != old(calls) && env.synced then cur.(peerFP := peerFP, base := BLANK) else cur
      ensures applied[id] == if calls != old(calls) && env.synced then old(applied)[id].(peers := inst.peers)
                             else old(applied)[id]
    {
      var cur := procs[id].(tag := tag, peers := inst.peers);
      Put(id, cur, applied[id]);
      if cur.peerFP != peerFP {
        Record(Sync(id, conf, env.synced));
        if !env.synced { return false; }
        ghost var mid, midApplied := procs, applied;
        Put(id, cur.(peerFP := peerFP, base := BLANK), applied[id].(peers := inst.peers));
        PutTwice(old(procs), mid, procs, id);
        PutTwice(old(applied), midApplied, applied, id);
      }
      ok := true;
    }

    /** Replace the entry of a managed interface. */
    method Put(id: int, m: Managed, ghost a: Applied)
      requires Valid() && id in procs && (Faithful(procs[id], applied[id]) ==> Faithful(m, a))
      modifies this`procs, this`applied
      ensures Valid() && procs == old(procs)[id := m] && applied == old(applied)[id := a]
      ensures OthersKept(old(procs), procs, id)
    {
      assert Faithful(procs[id], applied[id]);
      FaithfulPut(procs, applied, id, m, a);
      procs, applied := procs[id := m], applied[id := a];
      assert procs.Keys == old(procs).Keys;
    }

    method Remove(id: int, stopped: bool)
      requires Valid()
      modifies this
      ensures Valid() && procs == old(procs) - {id}
    {
      if id in procs {
        Forget(id, stopped);
      }
    }

    method ForgetUnwanted(want: set<int>, stops: int -> bool)
      requires Valid()
      modifies this
      ensures Valid() && procs.Keys == old(procs).Keys * want
      ensures forall id <- procs :: procs[id] == old(procs)[id]
      ensures old(procs).Keys <= want ==> calls == old(calls)
    {
      var ids := procs.Keys - want;
      assert old(procs).Keys <= want ==> ids == {};
      while ids != {}
        invariant Valid() && ids <= procs.Keys && ids !! want
        invariant procs.Keys == old(procs).Keys * want + ids
        invariant forall id <- procs :: procs[id] == old(procs)[id]
        invariant old(procs).Keys <= want ==> ids == {} && calls == old(calls)
        decreases ids
      {
        var id := PickAny(ids);
        ids := ids - {id};
        Forget(id, stops(id));
      }
    }

    /** The second half of Reconcile: ensure every desired interface, going on after a failure. */
    method EnsureAll(desired: seq<Wanted>, envs: nat -> Env) returns (failed: seq<bool>)
      requires Valid() && procs.Keys <= WantedIds(desired)
      modifies this
      ensures Valid() && procs.Keys <= WantedIds(desired) && |failed| == |desired|
      ensures DistinctIds(desired) ==> Settled(old(procs), procs, desired, envs, failed)
      ensures AllRunning(old(procs), desired, envs) ==> calls == old(calls) && procs == old(procs)
    {
      failed := [];
      for i := 0 to |desired|
        invariant Valid() && procs.Keys <= WantedIds(desired) && |failed| == i
        invariant DistinctIds(desired) ==> Settled(old(procs), procs, desired, envs, failed)
        invariant AllRunning(old(procs), desired, envs) ==> calls == old(calls) && procs == old(procs)
      {
        ghost var before := procs;
        var ok := EnsureOne(desired[i], envs(i));
        if DistinctIds(desired) {
          SettleNext(old(procs), before, procs, desired, envs, failed, ok);
        }
        OnlyWanted(before, procs, desired, i);
        failed := failed + [!ok];
      }
    }

    /** One round of that loop, in terms of the entry alone. */
    method EnsureOne(w: Wanted, env: Env) returns (ok: bool)
      requires Valid()
      modifies this
      ensures Valid() && OthersKept(old(procs), procs, w.id)
      ensures ok == Succeeds(old(procs), w, env) && (w.id in procs <==> ManagedAfter(old(procs), w, env))
      ensures ok ==> Serves(procs, w)
      ensures Serves(old(procs), w) && env.running && !env.tproxyRefused ==> calls == old(calls) && procs == old(procs)
    {
      ghost var before := procs;
      ok := EnsureLocked(w.id, w.tag, w.inst, w.host, env);
      if Serves(before, w) && env.running && !env.tproxyRefused {
        assert procs[w.id] == before[w.id];
        SameEverywhere(before, procs, w.id);
      }
    }

    /** Reconcile: nothing outside the desired list stays managed. With distinct ids, every desired interface is managed
        afterwards exactly when its own outcomes allow it, and what did not fail has the device section and the peers of
        its own entry. A list that is applied and running costs no call. */
    method Reconcile(desired: seq<Wanted>, envs: nat -> Env, stops: int -> bool) returns (failed: seq<bool>)
      requires Valid()
      modifies this
      ensures Valid() && procs.Keys <= WantedIds(desired) && |failed| == |desired|
      ensures DistinctIds(desired) ==> forall i :: 0 <= i < |desired| ==>
                && failed[i] == !Succeeds(old(procs), desired[i], envs(i))
                && (desired[i].id in procs <==> ManagedAfter(old(procs), desired[i], envs(i)))
                && (!failed[i] ==> Serves(procs, desired[i]))
      ensures old(procs).Keys <= WantedIds(desired) && AllRunning(old(procs), desired, envs) ==>
                calls == old(calls) && procs == old(procs)
    {
      ghost var before := procs;
      ForgetUnwanted(WantedIds(desired), stops);
      ghost var kept := procs;
      assert before.Keys <= WantedIds(desired) ==> kept == before by {
        if before.Keys <= WantedIds(desired) { assert kept.Keys == before.Keys; }
      }
      failed := EnsureAll(desired, envs);
      KeptOutcome(before, kept, desired, envs);
    }

    method StopAll(stops: int -> bool)
      requires Valid()
      modifies this
      ensures Valid() && procs == map[]
    {
      ForgetUnwanted({}, stops);
      assert procs.Keys == {};
    }

    /** Any sequence of operations, with any outcome of any call, keeps the account. */
    method RunAll(ops: seq<Op>)
      requires Valid()
      modifies this
      ensures Valid()
    {
      for i := 0 to |ops|
        invariant Valid()
      {
        match ops[i] {
          case Ensure(w, env) => var _ := EnsureLocked(w.id, w.tag, w.inst, w.host, env);
          case Reconcile(desired, envs, stops) => var _ := Reconcile(desired, envs, stops);
          case Remove(id, stopped) => Remove(id, stopped);
          case StopAll(stops) => StopAll(stops);
        }
      }
    }
  }

  /** After any run: an interface started and not stopped since is managed, or a Stop of it failed and nothing about it
      succeeded since. */
  lemma UpIsManagedOrLeaked(m: Manager, id: int)
    requires m.Valid()
    ensures IsUp(m.calls, id) <==> id in m.procs || (IsUp(m.calls, id) && StoppedInVain(m.calls, id))
    ensures id in m.procs ==> IsUp(m.calls, id) && !StoppedInVain(m.calls, id)
  {
    ReplayMeans(m.calls, id);
  }

  /** So the interfaces that are up are exactly the managed ones if and only if no Stop was in vain. */
  lemma UpIsManagedIff(m: Manager)
    requires m.Valid()
    ensures (forall id :: IsUp(m.calls, id) <==> id in m.procs)
       <==> (forall id :: !(IsUp(m.calls, id) && StoppedInVain(m.calls, id)))
  {
    forall id ensures (IsUp(m.calls, id) <==> id in m.procs) <==> !(IsUp(m.calls, id) && StoppedInVain(m.calls, id)) {
      UpIsManagedOrLeaked(m, id);
    }
  }

  /** And a Stop that fails does leave an interface up that is not managed. */
  method FailedStopLeaks(m: Manager, id: int)
    requires m.Valid() && id in m.procs
    modifies m
    ensures m.Valid() && id !in m.procs && IsUp(m.calls, id)
  {
    UpIsManagedOrLeaked(m, id);
    ghost var before := m.calls;
    m.Forget(id, false);
    IsUpSnoc(before, Stop(id, false), id);
  }
}
