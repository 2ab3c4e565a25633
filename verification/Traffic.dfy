/** Traffic accounting (internal/awg/manager.go, internal/mtproto/manager.go): counters are scraped outside the lock,
    turned into deltas against a baseline snapshotted before, and stored back afterwards, while peers are re-added,
    interfaces restart and baselines are reset at any point in between. */
module Traffic {
  import opened Text

  /** A peer's public key (awg), a client's email (mtproto). */
  datatype Key = Key(text: string)

  /** Up is what the interface received (rx), Down what it sent (tx). */
  datatype Dir = Up | Down
  datatype Bytes = Bytes(up: int, down: int)

  const ZERO := Bytes(0, 0)

  function Of(b: Bytes, d: Dir): int { if d.Up? then b.up else b.down }
  function Add(a: Bytes, b: Bytes): Bytes { Bytes(a.up + b.up, a.down + b.down) }
  function Pos(x: int): int { if x < 0 then 0 else x }

  /** The counters of an interface, one map per direction. */
  datatype Counters = Counters(rx: map<Key, int>, tx: map<Key, int>)

  const NONE := Counters(map[], map[])

  predicate Present(c: Counters, p: Key) { p in c.rx && p in c.tx }
  function Get(c: Counters, p: Key): Bytes { if Present(c, p) then Bytes(c.rx[p], c.tx[p]) else ZERO }
  function Put(c: Counters, p: Key, b: Bytes): Counters { Counters(c.rx[p := b.up], c.tx[p := b.down]) }

  /** The baseline of one interface. */
  datatype Baseline = Baseline(haveLast: bool, lastRx: map<Key, int>, lastTx: map<Key, int>)

  const BLANK := Baseline(false, map[], map[])

  predicate Tracked(b: Baseline, p: Key) { b.haveLast && p in b.lastRx && p in b.lastTx }

  function LastOf(b: Baseline, p: Key, d: Dir): int
    requires Tracked(b, p)
  {
    if d.Up? then b.lastRx[p] else b.lastTx[p]
  }

  /** What one scrape bills a peer, given the baseline it was compared with. */
  function PeerDelta(prev: Baseline, p: Key, rx: int, tx: int): Bytes {
    if Tracked(prev, p) then Bytes(Pos(rx - prev.lastRx[p]), Pos(tx - prev.lastTx[p])) else ZERO
  }

  function Delta(prev: Baseline, now: Counters, p: Key): Bytes {
    if Present(now, p) then PeerDelta(prev, p, now.rx[p], now.tx[p]) else ZERO
  }

  function BaselineOf(now: Counters): Baseline { Baseline(true, now.rx, now.tx) }

  // ---------------------------------------------------------------- one scraped interface

  /** One line of the interface dump. */
  datatype PeerDump = PeerDump(key: Key, rx: int, tx: int)

  datatype Report = Report(key: Key, up: int, down: int)

  function Scraped(peers: seq<PeerDump>): Counters {
    if peers == [] then NONE
    else
      var last := peers[|peers| - 1];
      Put(Scraped(peers[..|peers| - 1]), last.key, Bytes(last.rx, last.tx))
  }

  function Reported(out: seq<Report>, p: Key): Bytes {
    if out == [] then ZERO
    else
      var r := out[|out| - 1];
      if r.key == p then Add(Reported(out[..|out| - 1], p), Bytes(r.up, r.down)) else Reported(out[..|out| - 1], p)
  }

  function Total(out: seq<Report>): Bytes {
    if out == [] then ZERO else Add(Total(out[..|out| - 1]), Bytes(out[|out| - 1].up, out[|out| - 1].down))
  }

  predicate DistinctKeys(peers: seq<PeerDump>) {
    forall i, j :: 0 <= i < j < |peers| ==> peers[i].key != peers[j].key
  }

  lemma {:induction false} ScrapedKeys(peers: seq<PeerDump>, p: Key)
    ensures Present(Scraped(peers), p) <==> exists i :: 0 <= i < |peers| && peers[i].key == p
  {
    if peers != [] {
      var n := |peers| - 1;
      ScrapedKeys(peers[..n], p);
      if Present(Scraped(peers), p) && p != peers[n].key {
        var i :| 0 <= i < n && peers[..n][i].key == p;
        assert peers[i].key == p;
      }
      if i :| 0 <= i < |peers| && peers[i].key == p {
        if i < n { assert peers[..n][i].key == p; }
      }
    }
  }

  lemma ReportedSnoc(out: seq<Report>, r: Report, p: Key)
    ensures Reported(out + [r], p) == if r.key == p then Add(Reported(out, p), Bytes(r.up, r.down)) else Reported(out, p)
  {
    assert (out + [r])[..|out|] == out;
  }

  lemma TotalSnoc(out: seq<Report>, r: Report)
    ensures Total(out + [r]) == Add(Total(out), Bytes(r.up, r.down))
  {
    assert (out + [r])[..|out|] == out;
  }

  lemma ScrapedNext(peers: seq<PeerDump>, i: nat)
    requires i < |peers|
    ensures Scraped(peers[..i + 1]) == Put(Scraped(peers[..i]), peers[i].key, Bytes(peers[i].rx, peers[i].tx))
    ensures DistinctKeys(peers) ==> !Present(Scraped(peers[..i]), peers[i].key)
  {
    assert peers[..i + 1][..i] == peers[..i];
    ScrapedKeys(peers[..i], peers[i].key);
    assert forall j :: 0 <= j < i ==> peers[..i][j] == peers[j];
  }

  /** Every client is reported exactly its delta. */
  ghost predicate Exact(out: seq<Report>, prev: Baseline, now: Counters) {
    forall p :: Reported(out, p) == Delta(prev, now, p)
  }

  predicate Worthwhile(r: Report) { r.up >= 0 && r.down >= 0 && (r.up > 0 || r.down > 0) }

  /** What the dump of one interface reports, in order. */
  function Reports(prev: Baseline, peers: seq<PeerDump>): seq<Report> {
    if peers == [] then []
    else
      var last := peers[|peers| - 1];
      var d := PeerDelta(prev, last.key, last.rx, last.tx);
      var before := Reports(prev, peers[..|peers| - 1]);
      if d == ZERO then before else before + [Report(last.key, d.up, d.down)]
  }

  lemma DeltaPut(prev: Baseline, now: Counters, key: Key, b: Bytes, p: Key)
    ensures Delta(prev, Put(now, key, b), p) == if p == key then PeerDelta(prev, p, b.up, b.down) else Delta(prev, now, p)
  {
  }

  lemma {:induction false} ReportsExact(prev: Baseline, peers: seq<PeerDump>, p: Key)
    requires DistinctKeys(peers)
    ensures Reported(Reports(prev, peers), p) == Delta(prev, Scraped(peers), p)
  {
    if peers != [] {
      var n := |peers| - 1;
      assert peers[..|peers|] == peers;
      ScrapedNext(peers, n);
      ReportsExact(prev, peers[..n], p);
      DeltaPut(prev, Scraped(peers[..n]), peers[n].key, Bytes(peers[n].rx, peers[n].tx), p);
      assert p == peers[n].key ==> Delta(prev, Scraped(peers[..n]), p) == ZERO;
      var d := PeerDelta(prev, peers[n].key, peers[n].rx, peers[n].tx);
      if d != ZERO {
        ReportedSnoc(Reports(prev, peers[..n]), Report(peers[n].key, d.up, d.down), p);
      }
    }
  }

  lemma ReportsNext(prev: Baseline, peers: seq<PeerDump>, i: nat)
    requires i < |peers|
    ensures var d := PeerDelta(prev, peers[i].key, peers[i].rx, peers[i].tx);
            var before := Reports(prev, peers[..i]);
            && Reports(prev, peers[..i + 1]) == (if d == ZERO then before else before + [Report(peers[i].key, d.up, d.down)])
            && Total(Reports(prev, peers[..i + 1])) == Add(Total(before), d)
  {
    assert peers[..i + 1][..i] == peers[..i];
    var d := PeerDelta(prev, peers[i].key, peers[i].rx, peers[i].tx);
    if d != ZERO {
      TotalSnoc(Reports(prev, peers[..i]), Report(peers[i].key, d.up, d.down));
    }
  }

  lemma {:induction false} ReportsWorthwhile(prev: Baseline, peers: seq<PeerDump>)
    ensures forall r <- Reports(prev, peers) :: Worthwhile(r)
  {
    if peers != [] {
      ReportsWorthwhile(prev, peers[..|peers| - 1]);
    }
  }

  /** The loop over the scraped peers of one interface. The new baseline is what was scraped; every client is reported
      exactly its delta; and the inbound's total is the sum of what its clients are reported. */
  method CollectInterface(prev: Baseline, peers: seq<PeerDump>)
    returns (next: Baseline, inbound: Bytes, out: seq<Report>)
    ensures next == BaselineOf(Scraped(peers))
    ensures inbound == Total(out)
    ensures DistinctKeys(peers) ==> Exact(out, prev, Scraped(peers))
    ensures forall r <- out :: Worthwhile(r)
  {
    var newRx: map<Key, int>, newTx: map<Key, int> := map[], map[];
    inbound, out := ZERO, [];
    for i := 0 to |peers|
      invariant Counters(newRx, newTx) == Scraped(peers[..i])
      invariant inbound == Total(Reports(prev, peers[..i]))
      invariant out == Reports(prev, peers[..i])
    {
      var peer := peers[i];
      ScrapedNext(peers, i);
      ReportsNext(prev, peers, i);
      newRx, newTx := newRx[peer.key := peer.rx], newTx[peer.key := peer.tx];
      var du, dd := BillPeer(prev, peer);
      inbound := Add(inbound, Bytes(du, dd));
      if du > 0 || dd > 0 {
        out := out + [Report(peer.key, du, dd)];
      }
    }
    assert peers[..|peers|] == peers;
    next := Baseline(true, newRx, newTx);
    ReportsWorthwhile(prev, peers);
    if DistinctKeys(peers) {
      forall p ensures Reported(out, p) == Delta(prev, Scraped(peers), p) {
        ReportsExact(prev, peers, p);
      }
    }
  }

  /** The two clamped differences; a peer without a baseline bills nothing. */
  method BillPeer(prev: Baseline, peer: PeerDump) returns (du: int, dd: int)
    ensures Bytes(du, dd) == PeerDelta(prev, peer.key, peer.rx, peer.tx)
    ensures du >= 0 && dd >= 0
  {
    if !prev.haveLast || peer.key !in prev.lastRx || peer.key !in prev.lastTx {
      return 0, 0;
    }
    du, dd := peer.rx - prev.lastRx[peer.key], peer.tx - prev.lastTx[peer.key];
    if du < 0 { du := 0; }
    if dd < 0 { dd := 0; }
  }

  // ---------------------------------------------------------------- every run

  type Collector = nat

  datatype Phase = Snapped(prev: Baseline) | Scraping(prev: Baseline, now: Counters)

  /** The counters of the interface, the bytes that truly went through per peer, the bytes billed so far, the
      manager's baseline while it has the interface, and the calls of CollectTraffic in flight. */
  datatype State = State(
    ctr: Counters, moved: Key -> Bytes, billed: Key -> Bytes,
    record: Option<Baseline>, calls: map<Collector, Phase>)

  const INIT := State(NONE, _ => ZERO, _ => ZERO, None, map[])

  datatype Step =
    | Transfer(p: Key, up: nat, down: nat)
    | PeerZeroed(p: Key)          // a peer is added, re-added, or its counters start over
    | PeerGone(p: Key)
    | Restarted                   // the interface starts, or is stopped and started: fresh counters, blank baseline
    | Stopped
    | PeersSynced                 // syncPeersLocked succeeded: the baseline is blanked
    | Snapshot(c: Collector)
    | Scrape(c: Collector)
    | ScrapeFails(c: Collector)
    | Store(c: Collector)

  function Next(s: State, step: Step): State {
    match step
    case Transfer(p, up, down) =>
      if Present(s.ctr, p)
      then s.(ctr := Put(s.ctr, p, Add(Get(s.ctr, p), Bytes(up, down))),
              moved := q => if q == p then Add(s.moved(q), Bytes(up, down)) else s.moved(q))
      else s
    case PeerZeroed(p) => s.(ctr := Put(s.ctr, p, ZERO))
    case PeerGone(p) => s.(ctr := Counters(s.ctr.rx - {p}, s.ctr.tx - {p}))
    case Restarted => s.(ctr := NONE, record := Some(BLANK))
    case Stopped => s.(ctr := NONE, record := None)
    case PeersSynced => if s.record.Some? then s.(record := Some(BLANK)) else s
    case Snapshot(c) =>
      if s.record.Some? && c !in s.calls then s.(calls := s.calls[c := Snapped(s.record.value)]) else s
    case Scrape(c) =>
      if c in s.calls && s.calls[c].Snapped? then s.(calls := s.calls[c := Scraping(s.calls[c].prev, s.ctr)]) else s
    case ScrapeFails(c) => if c in s.calls && s.calls[c].Snapped? then s.(calls := s.calls - {c}) else s
    case Store(c) =>
      if c in s.calls && s.calls[c].Scraping? then
        s.(calls := s.calls - {c},
           billed := p => Add(s.billed(p), Delta(s.calls[c].prev, s.calls[c].now, p)),
           record := if s.record.Some? then Some(BaselineOf(s.calls[c].now)) else None)
      else s
  }

  function Run(s: State, steps: seq<Step>): State {
    if steps == [] then s else Next(Run(s, steps[..|steps| - 1]), steps[|steps| - 1])
  }

  /** At most one collection is in flight. */
  ghost predicate Alone(s: State) { forall c: Collector, d: Collector :: c in s.calls && d in s.calls ==> c == d }

  ghost predicate OneCollector(s: State, steps: seq<Step>) {
    forall i :: 0 <= i <= |steps| ==> Alone(Run(s, steps[..i]))
  }

  lemma OneCollectorPrefix(s: State, steps: seq<Step>)
    requires OneCollector(s, steps) && steps != []
    ensures OneCollector(s, steps[..|steps| - 1]) && Alone(Run(s, steps)) && Alone(Run(s, steps[..|steps| - 1]))
  {
    var n := |steps| - 1;
    assert steps[..|steps|] == steps;
    forall i | 0 <= i <= n ensures Alone(Run(s, steps[..n][..i])) {
      assert steps[..n][..i] == steps[..i];
    }
    assert Alone(Run(s, steps[..n]));
  }

  // ---------------------------------------------------------------- never more than was transferred

  /** What may still be billed against a baseline fits under what was transferred. */
  ghost predicate Covered(s: State, b: Baseline, p: Key, d: Dir) {
    Tracked(b, p) ==> Of(s.billed(p), d) + Pos(Of(Get(s.ctr, p), d) - LastOf(b, p, d)) <= Of(s.moved(p), d)
                      && LastOf(b, p, d) >= 0
  }

  ghost predicate CallCovered(s: State, call: Phase, p: Key, d: Dir) {
    match call
    case Snapped(prev) => Covered(s, prev, p, d)
    case Scraping(prev, now) =>
      Present(now, p) ==>
        Of(s.billed(p), d) + Of(Delta(prev, now, p), d) + Pos(Of(Get(s.ctr, p), d) - Of(Get(now, p), d))
        <= Of(s.moved(p), d)
        && Of(Get(now, p), d) >= 0
  }

  ghost predicate Fair(s: State, p: Key, d: Dir) {
    && Of(Get(s.ctr, p), d) >= 0
    && Of(s.billed(p), d) <= Of(s.moved(p), d)
    && (s.record.Some? ==> Covered(s, s.record.value, p, d))
    && (forall c <- s.calls :: CallCovered(s, s.calls[c], p, d))
  }

  /** The counter grew by no more than was transferred meanwhile, and nothing was billed. */
  ghost predicate Slower(s: State, t: State, p: Key, d: Dir) {
    && t.billed(p) == s.billed(p)
    && Of(s.moved(p), d) <= Of(t.moved(p), d)
    && 0 <= Of(Get(t.ctr, p), d)
    && (Of(Get(t.ctr, p), d) - Of(Get(s.ctr, p), d) <= Of(t.moved(p), d) - Of(s.moved(p), d))
  }

  lemma CallCarries(s: State, t: State, call: Phase, p: Key, d: Dir)
    requires Slower(s, t, p, d) && CallCovered(s, call, p, d)
    ensures CallCovered(t, call, p, d)
  {
  }

  lemma Carries(s: State, t: State, p: Key, d: Dir)
    requires Fair(s, p, d) && Slower(s, t, p, d)
    requires t.record == s.record || t.record == None || t.record == Some(BLANK)
    requires forall c <- t.calls :: c in s.calls && t.calls[c] == s.calls[c]
    ensures Fair(t, p, d)
  {
    forall c | c in t.calls ensures CallCovered(t, t.calls[c], p, d) {
      CallCarries(s, t, s.calls[c], p, d);
    }
  }

  lemma StepSlower(s: State, step: Step, p: Key, d: Dir)
    requires Fair(s, p, d) && !step.Store?
    ensures Slower(s, Next(s, step), p, d)
  {
  }

  lemma StepFair(s: State, step: Step, p: Key, d: Dir)
    requires Fair(s, p, d) && Alone(s)
    ensures Fair(Next(s, step), p, d)
  {
    var t := Next(s, step);
    if step.Store? {
      if step.c in s.calls && s.calls[step.c].Scraping? { StoreFair(s, step.c, p, d); }
    } else if step.Snapshot? {
      if t != s {
        assert CallCovered(t, t.calls[step.c], p, d);
        OthersFair(s, t, step.c, p, d);
      }
    } else if step.Scrape? {
      if t != s {
        assert CallCovered(s, s.calls[step.c], p, d);
        assert CallCovered(t, t.calls[step.c], p, d);
        OthersFair(s, t, step.c, p, d);
      }
    } else {
      StepSlower(s, step, p, d);
      Carries(s, t, p, d);
    }
  }

  /** Only one call moved on. */
  lemma OthersFair(s: State, t: State, c: Collector, p: Key, d: Dir)
    requires Fair(s, p, d) && c in t.calls && t == s.(calls := s.calls[c := t.calls[c]])
    requires CallCovered(t, t.calls[c], p, d)
    ensures Fair(t, p, d)
  {
    forall e | e in t.calls ensures CallCovered(t, t.calls[e], p, d) {
      if e != c { CallCarries(s, t, s.calls[e], p, d); }
    }
  }

  lemma BaselineAt(now: Counters, p: Key, d: Dir)
    ensures Tracked(BaselineOf(now), p) <==> Present(now, p)
    ensures Present(now, p) ==> LastOf(BaselineOf(now), p, d) == Of(Get(now, p), d)
  {
  }

  lemma NoOtherCall(s: State, c: Collector)
    requires Alone(s) && c in s.calls
    ensures s.calls - {c} == map[]
  {
  }

  lemma StoreFair(s: State, c: Collector, p: Key, d: Dir)
    requires Fair(s, p, d) && Alone(s) && c in s.calls && s.calls[c].Scraping?
    ensures Fair(Next(s, Store(c)), p, d)
  {
    var t := Next(s, Store(c));
    var prev, now := s.calls[c].prev, s.calls[c].now;
    assert CallCovered(s, s.calls[c], p, d);
    BaselineAt(now, p, d);
    NoOtherCall(s, c);
  }

  /** Over every run with one collection at a time, whatever resets, restarts and failures land between its snapshot,
      its scrape and its store, no peer is billed more than it transferred, in either direction. */
  lemma {:induction false} NeverOverbilled(steps: seq<Step>, p: Key, d: Dir)
    requires OneCollector(INIT, steps)
    ensures Fair(Run(INIT, steps), p, d)
    ensures Of(Run(INIT, steps).billed(p), d) <= Of(Run(INIT, steps).moved(p), d)
  {
    if steps != [] {
      OneCollectorPrefix(INIT, steps);
      NeverOverbilled(steps[..|steps| - 1], p, d);
      StepFair(Run(INIT, steps[..|steps| - 1]), steps[|steps| - 1], p, d);
    }
  }

  // ---------------------------------------------------------------- nothing is lost either

  /** Steps that reset nothing. */
  predicate Steady(step: Step) {
    step.Transfer? || step.Snapshot? || step.Scrape? || step.ScrapeFails? || step.Store?
  }

  /** The bytes of p billed since b0 lie between the first baseline and the one in use. */
  ghost predicate InStep(s: State, p: Key, d: Dir, origin: int) {
    && Present(s.ctr, p) && s.record.Some? && Tracked(s.record.value, p)
    && var c, b, last := Of(Get(s.ctr, p), d), Of(s.billed(p), d), LastOf(s.record.value, p, d);
       && last <= c && b - last == origin
       && forall k <- s.calls ::
            match s.calls[k]
            case Snapped(prev) => prev == s.record.value
            case Scraping(prev, now) => prev == s.record.value && Present(now, p) && last <= Of(Get(now, p), d) <= c
  }

  lemma StepInStep(s: State, step: Step, p: Key, d: Dir, origin: int)
    requires InStep(s, p, d, origin) && Alone(s) && Steady(step)
    ensures InStep(Next(s, step), p, d, origin)
    ensures var t := Next(s, step);
            Of(Get(t.ctr, p), d) - Of(Get(s.ctr, p), d) == Of(t.moved(p), d) - Of(s.moved(p), d)
  {
    var t := Next(s, step);
    if step.Store? && step.c in s.calls && s.calls[step.c].Scraping? {
      assert t.calls == map[];
    }
  }

  /** Between two points of a run without resets, what a tracked peer was billed is exactly its last baseline minus its
      first one, and its counter moved by exactly what it transferred: what is not billed yet is still in the
      counter. */
  lemma {:induction false} BillsTelescope(s: State, steps: seq<Step>, p: Key, d: Dir)
    requires s.record.Some? && Tracked(s.record.value, p) && Present(s.ctr, p) && s.calls == map[]
    requires LastOf(s.record.value, p, d) <= Of(Get(s.ctr, p), d)
    requires OneCollector(s, steps) && forall i :: 0 <= i < |steps| ==> Steady(steps[i])
    ensures var t := Run(s, steps);
            && Present(t.ctr, p) && t.record.Some? && Tracked(t.record.value, p)
            && InStep(t, p, d, Of(s.billed(p), d) - LastOf(s.record.value, p, d))
            && Of(t.billed(p), d) - Of(s.billed(p), d)
               == LastOf(t.record.value, p, d) - LastOf(s.record.value, p, d)
            && Of(Get(t.ctr, p), d) - Of(Get(s.ctr, p), d) == Of(t.moved(p), d) - Of(s.moved(p), d)
  {
    if steps != [] {
      var n := |steps| - 1;
      OneCollectorPrefix(s, steps);
      BillsTelescope(s, steps[..n], p, d);
      StepInStep(Run(s, steps[..n]), steps[n], p, d, Of(s.billed(p), d) - LastOf(s.record.value, p, d));
    }
  }

  // ---------------------------------------------------------------- the flag is redundant

  predicate FlagRedundant(b: Baseline) {
    b.lastRx.Keys == b.lastTx.Keys && (!b.haveLast ==> b.lastRx == map[])
  }

  predicate CallConsistent(call: Phase) {
    FlagRedundant(call.prev) && (call.Scraping? ==> call.now.rx.Keys == call.now.tx.Keys)
  }

  ghost predicate Consistent(s: State) {
    && s.ctr.rx.Keys == s.ctr.tx.Keys
    && (s.record.Some? ==> FlagRedundant(s.record.value))
    && (forall c <- s.calls :: CallConsistent(s.calls[c]))
  }

  lemma ConsistentStep(s: State, step: Step)
    requires Consistent(s)
    ensures Consistent(Next(s, step))
  {
    var t := Next(s, step);
    forall c | c in t.calls ensures CallConsistent(t.calls[c]) {
      if c in s.calls { assert CallConsistent(s.calls[c]); }
    }
    if step.Store? && step.c in s.calls { assert CallConsistent(s.calls[step.c]); }
  }

  /** In every reachable state, alone or not, a baseline that was never stored is empty and both directions know the
      same peers; so the deltas are those of the mtproto manager, which keeps one map and no flag. */
  lemma {:induction false} BaselinesConsistent(steps: seq<Step>)
    ensures Consistent(Run(INIT, steps))
  {
    if steps != [] {
      var n := |steps| - 1;
      BaselinesConsistent(steps[..n]);
      ConsistentStep(Run(INIT, steps[..n]), steps[n]);
    }
  }

  /** mtproto's delta for one client. */
  function ClientDelta(last: map<Key, Bytes>, users: map<Key, Bytes>, email: Key): Bytes {
    if email in users && email in last
    then Bytes(Pos(users[email].up - last[email].up), Pos(users[email].down - last[email].down)) else ZERO
  }

  /** One map holds what two maps hold. */
  ghost predicate Same(m: map<Key, Bytes>, c: Counters) {
    m.Keys == c.rx.Keys == c.tx.Keys && forall q <- m :: m[q] == Bytes(c.rx[q], c.tx[q])
  }

  lemma SameDelta(b: Baseline, last: map<Key, Bytes>, now: Counters, users: map<Key, Bytes>, p: Key)
    requires FlagRedundant(b) && Same(last, Counters(b.lastRx, b.lastTx)) && Same(users, now)
    ensures ClientDelta(last, users, p) == Delta(b, now, p)
  {
  }
}
