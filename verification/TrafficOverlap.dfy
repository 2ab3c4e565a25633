/** Collections that overlap (internal/awg/manager.go): the first tick of the AWG job is started by hand next to the
    scheduler (internal/web/web.go), so two calls of CollectTraffic can be in flight at once. */
module TrafficOverlap {
  import opened Text
  import opened Traffic

  // ---------------------------------------------------------------- any number of calls in flight

  ghost predicate CallRises(call: Phase, p: Key, d: Dir, c: int) {
    && Tracked(call.prev, p)
    && match call
       case Snapped(prev) => LastOf(prev, p, d) <= c
       case Scraping(prev, now) => Present(now, p) && LastOf(prev, p, d) <= Of(Get(now, p), d) <= c
  }

  /** The peer is counted and tracked, and every baseline in use lies at or below its counter. */
  ghost predicate Rising(s: State, p: Key, d: Dir) {
    && Present(s.ctr, p) && s.record.Some? && Tracked(s.record.value, p)
    && LastOf(s.record.value, p, d) <= Of(Get(s.ctr, p), d)
    && forall k <- s.calls :: CallRises(s.calls[k], p, d, Of(Get(s.ctr, p), d))
  }

  lemma StepRising(s: State, step: Step, p: Key, d: Dir)
    requires Rising(s, p, d) && Steady(step)
    ensures Rising(Next(s, step), p, d)
  {
    var t := Next(s, step);
    assert Of(Get(t.ctr, p), d) >= Of(Get(s.ctr, p), d);
    forall k | k in t.calls ensures CallRises(t.calls[k], p, d, Of(Get(t.ctr, p), d)) {
      if k in s.calls { assert CallRises(s.calls[k], p, d, Of(Get(s.ctr, p), d)); }
    }
    if step.Store? && step.c in s.calls && s.calls[step.c].Scraping? {
      assert CallRises(s.calls[step.c], p, d, Of(Get(s.ctr, p), d));
      BaselineAt(s.calls[step.c].now, p, d);
    }
  }

  /** How far the baseline moved while the call that now stores was in flight. */
  function Drifted(s: State, step: Step, p: Key, d: Dir): int {
    if step.Store? && step.c in s.calls && s.calls[step.c].Scraping? && Tracked(s.calls[step.c].prev, p)
       && s.record.Some? && Tracked(s.record.value, p)
    then LastOf(s.record.value, p, d) - LastOf(s.calls[step.c].prev, p, d) else 0
  }

  function Drift(s: State, steps: seq<Step>, p: Key, d: Dir): int {
    if steps == [] then 0
    else
      var n := |steps| - 1;
      Drift(s, steps[..n], p, d) + Drifted(Run(s, steps[..n]), steps[n], p, d)
  }

  function Last(s: State, p: Key, d: Dir): int
    requires s.record.Some? && Tracked(s.record.value, p)
  {
    LastOf(s.record.value, p, d)
  }

  lemma StepBills(s: State, step: Step, p: Key, d: Dir)
    requires Rising(s, p, d) && Steady(step)
    ensures Rising(Next(s, step), p, d)
    ensures var t := Next(s, step);
            && Of(t.billed(p), d) - Of(s.billed(p), d) == Last(t, p, d) - Last(s, p, d) + Drifted(s, step, p, d)
            && Of(Get(t.ctr, p), d) - Of(Get(s.ctr, p), d) == Of(t.moved(p), d) - Of(s.moved(p), d)
  {
    StepRising(s, step, p, d);
    if step.Store? && step.c in s.calls && s.calls[step.c].Scraping? {
      assert CallRises(s.calls[step.c], p, d, Of(Get(s.ctr, p), d));
      BaselineAt(s.calls[step.c].now, p, d);
    }
  }

  predicate AllSteady(steps: seq<Step>) { forall i :: 0 <= i < |steps| ==> Steady(steps[i]) }

  /** Over every run without resets, with any number of collections in flight, a peer is billed its last baseline minus
      its first one plus what the baseline moved under each call that stored; so the bills telescope if and only if
      these movements add up to nothing. */
  lemma {:induction false} BillsDrift(s: State, steps: seq<Step>, p: Key, d: Dir)
    requires Rising(s, p, d) && AllSteady(steps)
    ensures var t := Run(s, steps);
            && Rising(t, p, d)
            && Of(t.billed(p), d) - Of(s.billed(p), d) == Last(t, p, d) - Last(s, p, d) + Drift(s, steps, p, d)
            && Of(Get(t.ctr, p), d) - Of(Get(s.ctr, p), d) == Of(t.moved(p), d) - Of(s.moved(p), d)
  {
    if steps != [] {
      var n := |steps| - 1;
      BillsDrift(s, steps[..n], p, d);
      StepBills(Run(s, steps[..n]), steps[n], p, d);
    }
  }

  // ---------------------------------------------------------------- two calls from one baseline

  /** Both calls took their snapshot, and neither has stored. */
  ghost predicate Pair(s: State, c: Collector, d: Collector) {
    && c != d && c in s.calls && d in s.calls && s.record.Some?
    && s.calls[c].prev == s.record.value && s.calls[d].prev == s.record.value
  }

  predicate HasScraped(s: State, c: Collector) { c in s.calls && s.calls[c].Scraping? }

  /** Steps that neither snapshot, fail nor store. */
  predicate Quiet(steps: seq<Step>) { forall i :: 0 <= i < |steps| ==> steps[i].Transfer? || steps[i].Scrape? }

  /** A call keeps the baseline it was given, and the manager's stays, until one of them stores. */
  lemma {:induction false} QuietKeeps(s: State, steps: seq<Step>, c: Collector)
    requires Quiet(steps) && c in s.calls
    ensures var t := Run(s, steps); c in t.calls && t.calls[c].prev == s.calls[c].prev && t.record == s.record
  {
    if steps != [] {
      QuietKeeps(s, steps[..|steps| - 1], c);
    }
  }

  lemma {:induction false} QuietNoDrift(s: State, steps: seq<Step>, p: Key, d: Dir)
    requires Quiet(steps)
    ensures Drift(s, steps, p, d) == 0
  {
    if steps != [] {
      QuietNoDrift(s, steps[..|steps| - 1], p, d);
    }
  }


  lemma {:induction false} RunAppend(s: State, a: seq<Step>, b: seq<Step>)
    ensures Run(s, a + b) == Run(Run(s, a), b)
  {
    if b == [] {
      assert a + b == a;
    } else {
      var n := |b| - 1;
      assert (a + b)[..|a + b| - 1] == a + b[..n] && (a + b)[|a + b| - 1] == b[n];
      RunAppend(s, a, b[..n]);
    }
  }

  /** The run in which c stores first and d second. */
  function FirstStored(s: State, before: seq<Step>, c: Collector): State { Next(Run(s, before), Store(c)) }

  function PairRun(s: State, before: seq<Step>, c: Collector, between: seq<Step>, d: Collector): State {
    Next(Run(FirstStored(s, before, c), between), Store(d))
  }

  lemma QuietSteady(steps: seq<Step>)
    requires Quiet(steps)
    ensures AllSteady(steps)
  {
  }

  /** Two calls that took their snapshots before either stored bill the delta of the one that stored first on top of the
      telescoped amount: the bills telescope if and only if that delta is zero. */
  lemma OverlapExcessIff(s: State, before: seq<Step>, c: Collector, between: seq<Step>, d: Collector, p: Key, dir: Dir)
    requires Rising(s, p, dir) && Pair(s, c, d) && Quiet(before) && Quiet(between)
    requires HasScraped(Run(s, before), c) && HasScraped(Run(FirstStored(s, before, c), between), d)
    ensures var call, t := Run(s, before).calls[c], PairRun(s, before, c, between, d);
            var first := Of(Delta(call.prev, call.now, p), dir);
            && Rising(t, p, dir) && first >= 0
            && Of(t.billed(p), dir) - Of(s.billed(p), dir) == Last(t, p, dir) - Last(s, p, dir) + first
            && (Of(t.billed(p), dir) - Of(s.billed(p), dir) == Last(t, p, dir) - Last(s, p, dir) <==> first == 0)
  {
    QuietKeeps(s, before, c);
    QuietKeeps(s, before, d);
    QuietSteady(before);
    QuietNoDrift(s, before, p, dir);
    BillsDrift(s, before, p, dir);
    var m := Run(s, before);
    StepBills(m, Store(c), p, dir);
    FirstStoreMoves(m, c, d, p, dir);
    var f := FirstStored(s, before, c);
    QuietKeeps(f, between, d);
    QuietSteady(between);
    QuietNoDrift(f, between, p, dir);
    BillsDrift(f, between, p, dir);
    StepBills(Run(f, between), Store(d), p, dir);
  }

  lemma FirstStoreMoves(m: State, c: Collector, d: Collector, p: Key, dir: Dir)
    requires Rising(m, p, dir) && Pair(m, c, d) && m.calls[c].Scraping?
    ensures var f := Next(m, Store(c));
            && d in f.calls && f.calls[d] == m.calls[d] && f.record.Some? && Tracked(f.record.value, p)
            && Last(f, p, dir) - Last(m, p, dir) == Of(Delta(m.calls[c].prev, m.calls[c].now, p), dir) >= 0
  {
    assert CallRises(m.calls[c], p, dir, Of(Get(m.ctr, p), dir));
    BaselineAt(m.calls[c].now, p, dir);
  }

  // ---------------------------------------------------------------- a run that does it

  /** A first collection gives a new peer the baseline zero. */
  function Setup(p: Key): seq<Step> { [Restarted, PeerZeroed(p), Snapshot(0), Scrape(0), Store(0)] }

  /** Then n bytes go through, and two calls collect them together. */
  function Together(p: Key, n: nat): seq<Step> {
    [Transfer(p, n, 0), Snapshot(0), Snapshot(1), Scrape(0), Scrape(1), Store(0), Store(1)]
  }

  lemma RunNext(s: State, steps: seq<Step>, i: nat)
    requires i < |steps|
    ensures Run(s, steps[..i + 1]) == Next(Run(s, steps[..i]), steps[i])
  {
    assert steps[..i + 1][..i] == steps[..i];
  }

  /** The peer is tracked with baseline zero, nothing was moved or billed, and no call is in flight. */
  ghost predicate Clean(s: State, p: Key) {
    && s.record.Some? && Tracked(s.record.value, p) && s.record.value.lastRx[p] == 0 && s.record.value.lastTx[p] == 0
    && Present(s.ctr, p) && Get(s.ctr, p) == ZERO && s.moved(p) == ZERO && s.billed(p) == ZERO
    && 0 !in s.calls && 1 !in s.calls
  }

  lemma SetupScraped(p: Key)
    ensures var s := Run(INIT, Setup(p)[..4]);
            && s.record.Some? && s.moved(p) == ZERO && s.billed(p) == ZERO
            && 1 !in s.calls && HasScraped(s, 0) && s.calls[0] == Scraping(BLANK, s.ctr)
            && Present(s.ctr, p) && Get(s.ctr, p) == ZERO
  {
    assert Setup(p)[..0] == [];
    RunNext(INIT, Setup(p), 0);
    RunNext(INIT, Setup(p), 1);
    RunNext(INIT, Setup(p), 2);
    RunNext(INIT, Setup(p), 3);
  }

  lemma StoreZero(s: State, p: Key)
    requires s.record.Some? && s.moved(p) == ZERO && s.billed(p) == ZERO
    requires 1 !in s.calls && HasScraped(s, 0) && s.calls[0] == Scraping(BLANK, s.ctr)
    requires Present(s.ctr, p) && Get(s.ctr, p) == ZERO
    ensures Clean(Next(s, Store(0)), p)
  {
    BaselineAt(s.ctr, p, Up);
  }

  lemma SetupClean(p: Key)
    ensures Clean(Run(INIT, Setup(p)), p)
  {
    SetupScraped(p);
    StoreZero(Run(INIT, Setup(p)[..4]), p);
    RunNext(INIT, Setup(p), 4);
    assert Setup(p)[..5] == Setup(p);
  }

  /** After the transfer, the two snapshots and the two scrapes. */
  ghost predicate BothHold(t: State, p: Key, n: nat) {
    && 0 in t.calls && 1 in t.calls && t.calls[0].Scraping? && t.calls[0] == t.calls[1]
    && Delta(t.calls[0].prev, t.calls[0].now, p).up == n
    && t.moved(p).up == n && t.billed(p).up == 0
  }

  function AfterTransfer(s: State, p: Key, n: nat): State { Next(s, Transfer(p, n, 0)) }

  function BothScrape(s: State): State { Next(Next(Next(Next(s, Snapshot(0)), Snapshot(1)), Scrape(0)), Scrape(1)) }

  lemma TransferDue(s: State, p: Key, n: nat)
    requires Clean(s, p)
    ensures var m := AfterTransfer(s, p, n);
            && m.record == s.record && m.calls == s.calls && m.moved(p).up == n && m.billed(p).up == 0
            && Delta(s.record.value, m.ctr, p).up == n
  {
  }

  lemma ScrapesAgree(m: State, p: Key, n: nat)
    requires m.record.Some? && 0 !in m.calls && 1 !in m.calls && m.moved(p).up == n && m.billed(p).up == 0
    requires Delta(m.record.value, m.ctr, p).up == n
    ensures BothHold(BothScrape(m), p, n)
  {
    var t := BothScrape(m);
    var call := Scraping(m.record.value, m.ctr);
    assert t.calls[0] == call && t.calls[1] == call;
  }

  lemma BothBill(t: State, p: Key, n: nat)
    requires BothHold(t, p, n)
    ensures var u := Next(Next(t, Store(0)), Store(1)); u.billed(p).up == 2 * n && u.moved(p).up == n
  {
    var v := Next(t, Store(0));
    assert v.calls[1] == t.calls[1];
  }

  lemma TogetherIs(s: State, p: Key, n: nat)
    ensures Run(s, Together(p, n)) == Next(Next(BothScrape(AfterTransfer(s, p, n)), Store(0)), Store(1))
  {
    var steps := Together(p, n);
    assert steps[..0] == [];
    RunNext(s, steps, 0);
    RunNext(s, steps, 1);
    RunNext(s, steps, 2);
    RunNext(s, steps, 3);
    RunNext(s, steps, 4);
    RunNext(s, steps, 5);
    RunNext(s, steps, 6);
    assert steps[..7] == steps;
  }

  /** From the start of the panel: n bytes are billed as 2 * n, more than went through. */
  lemma OverlapOverbills(p: Key, n: nat)
    ensures var s := Run(INIT, Setup(p) + Together(p, n)); s.billed(p).up == 2 * n && s.moved(p).up == n
  {
    RunAppend(INIT, Setup(p), Together(p, n));
    SetupClean(p);
    var s := Run(INIT, Setup(p));
    TransferDue(s, p, n);
    ScrapesAgree(AfterTransfer(s, p, n), p, n);
    BothBill(BothScrape(AfterTransfer(s, p, n)), p, n);
    TogetherIs(s, p, n);
  }
}
