/** The single-flight region cache (internal/pia/catalog.go). Callers run ListRegions concurrently; every critical
    section and every fetch is one step of the model, and any caller may take the next step. */
module Catalog {
  import opened Text

  type Caller = nat
  type Chan = nat
  type Regions = seq<string>

  datatype Snapshot = Snapshot(payload: string, hint: string, signatureVerified: bool)
  datatype Listing = Listing(regions: Regions, schema: string)

  /** ParseServerList. */
  type Parser = (string, string) -> Option<Listing>

  /** Where a call of ListRegions stands. */
  datatype Phase =
    | Entering                                  // about to take the lock
    | Waiting(wait: Chan)
    | Fetching(done: Chan)
    | Failing(done: Chan)                       // fetch, signature or parse failed
    | Ready(done: Chan, listing: Listing)       // parsed, not yet published
    | Published(done: Chan, listing: Listing)   // cached, the deferred function still to run
    | Returned(result: Option<Listing>)

  predicate Fetcher(p: Phase) { p.Fetching? || p.Failing? || p.Ready? || p.Published? }

  /** The catalog, the calls so far, the channels made and closed, and the snapshots fetched. */
  datatype State = State(
    cached: Listing, verified: bool, fetchedAt: int, refreshing: Option<Chan>,
    calls: map<Caller, Phase>, made: Chan, closed: seq<Chan>, fetched: set<Snapshot>)

  const INIT := State(Listing([], ""), false, 0, None, map[], 0, [], {})

  datatype Step =
    | Call(c: Caller)
    | Lock(c: Caller, now: int)                           // the critical section of the loop
    | Cancel(c: Caller)                                   // ctx.Done while waiting
    | Wake(c: Caller)                                     // the awaited channel is closed
    | Fetch(c: Caller, snapshot: Option<Snapshot>)        // None is an error
    | Publish(c: Caller, now: int)
    | Finish(c: Caller)                                   // the deferred function, then return

  predicate FreshAt(s: State, ttl: int, now: int) {
    var age := now - s.fetchedAt;
    |s.cached.regions| > 0 && s.verified && ttl > 0 && 0 <= age < ttl
  }

  function Next(s: State, step: Step, ttl: int, parse: Parser): State {
    match step
    case Call(c) => if c in s.calls then s else s.(calls := s.calls[c := Entering])
    case Lock(c, now) =>
      if c !in s.calls || !s.calls[c].Entering? then s
      else if FreshAt(s, ttl, now) then s.(calls := s.calls[c := Returned(Some(s.cached))])
      else if s.refreshing.Some? then s.(calls := s.calls[c := Waiting(s.refreshing.value)])
      else s.(calls := s.calls[c := Fetching(s.made)], refreshing := Some(s.made), made := s.made + 1)
    case Cancel(c) =>
      if c in s.calls && s.calls[c].Waiting? then s.(calls := s.calls[c := Returned(None)]) else s
    case Wake(c) =>
      if c in s.calls && s.calls[c].Waiting? && s.calls[c].wait in s.closed then s.(calls := s.calls[c := Entering])
      else s
    case Fetch(c, snapshot) =>
      if c !in s.calls || !s.calls[c].Fetching? then s
      else s.(calls := s.calls[c := AfterFetch(s.calls[c].done, snapshot, parse)],
              fetched := if snapshot.Some? then s.fetched + {snapshot.value} else s.fetched)
    case Publish(c, now) =>
      if c !in s.calls || !s.calls[c].Ready? then s
      else s.(calls := s.calls[c := Published(s.calls[c].done, s.calls[c].listing)],
              cached := s.calls[c].listing, verified := true, fetchedAt := now)
    case Finish(c) =>
      if c !in s.calls || !(s.calls[c].Failing? || s.calls[c].Published?) then s
      else s.(calls := s.calls[c := Returned(if s.calls[c].Published? then Some(s.calls[c].listing) else None)],
              refreshing := None, closed := s.closed + [s.calls[c].done])
  }

  function AfterFetch(done: Chan, snapshot: Option<Snapshot>, parse: Parser): Phase {
    if snapshot.None? || !snapshot.value.signatureVerified then Failing(done)
    else
      var listing := parse(snapshot.value.payload, snapshot.value.hint);
      if listing.None? then Failing(done) else Ready(done, listing.value)
  }

  function RunFrom(s: State, steps: seq<Step>, ttl: int, parse: Parser): State {
    if steps == [] then s else Next(RunFrom(s, steps[..|steps| - 1], ttl, parse), steps[|steps| - 1], ttl, parse)
  }

  function Run(steps: seq<Step>, ttl: int, parse: Parser): State {
    RunFrom(INIT, steps, ttl, parse)
  }

  // ---------------------------------------------------------------- what every step keeps

  /** The listing is what some fetched, signature-verified snapshot parses to. */
  ghost predicate Genuine(listing: Listing, fetched: set<Snapshot>, parse: Parser) {
    exists f :: f in fetched && f.signatureVerified && parse(f.payload, f.hint) == Some(listing)
  }

  predicate NoRepeat(s: seq<Chan>) { forall i, j :: 0 <= i < j < |s| ==> s[i] != s[j] }

  ghost predicate CallOk(s: State, p: Phase, parse: Parser) {
    match p
    case Entering => true
    case Waiting(w) => w in s.closed || s.refreshing == Some(w)
    case Fetching(d) => s.refreshing == Some(d)
    case Failing(d) => s.refreshing == Some(d)
    case Ready(d, l) => s.refreshing == Some(d) && Genuine(l, s.fetched, parse)
    case Published(d, l) => s.refreshing == Some(d) && Genuine(l, s.fetched, parse)
    case Returned(r) => r.Some? ==> Genuine(r.value, s.fetched, parse)
  }

  ghost predicate CallsOk(s: State, parse: Parser) { forall c <- s.calls :: CallOk(s, s.calls[c], parse) }

  ghost predicate OneFetcher(s: State) {
    forall c: Caller, d: Caller :: c in s.calls && d in s.calls && Fetcher(s.calls[c]) && Fetcher(s.calls[d]) ==> c == d
  }

  ghost predicate SomeFetcher(s: State) { exists c :: c in s.calls && Fetcher(s.calls[c]) }

  ghost predicate Inv(s: State, parse: Parser) {
    && OneFetcher(s)
    && (s.refreshing.Some? <==> SomeFetcher(s))
    && (s.refreshing.Some? ==> s.refreshing.value < s.made && s.refreshing.value !in s.closed)
    && NoRepeat(s.closed) && (forall d <- s.closed :: d < s.made)
    && CallsOk(s, parse)
    && (s.verified ==> Genuine(s.cached, s.fetched, parse))
  }

  lemma GenuineGrows(l: Listing, a: set<Snapshot>, b: set<Snapshot>, parse: Parser)
    requires Genuine(l, a, parse) && a <= b
    ensures Genuine(l, b, parse)
  {
  }

  /** Calls other than c keep their phase, and what that phase needs stays true. */
  lemma OthersOk(s: State, t: State, c: Caller, parse: Parser)
    requires CallsOk(s, parse) && c in t.calls && t.calls == s.calls[c := t.calls[c]]
    requires CallOk(t, t.calls[c], parse)
    requires s.fetched <= t.fetched && s.closed <= t.closed
    requires s.refreshing != t.refreshing ==>
               && (forall d <- s.calls :: d != c ==> !Fetcher(s.calls[d]))
               && (s.refreshing.Some? ==> s.refreshing.value in t.closed)
    ensures CallsOk(t, parse)
  {
    forall d | d in t.calls ensures CallOk(t, t.calls[d], parse) {
      if d != c {
        assert CallOk(s, s.calls[d], parse);
        var p := s.calls[d];
        if p.Ready? || p.Published? { GenuineGrows(p.listing, s.fetched, t.fetched, parse); }
        if p.Returned? && p.result.Some? { GenuineGrows(p.result.value, s.fetched, t.fetched, parse); }
      }
    }
  }

  lemma LockKeeps(s: State, c: Caller, now: int, ttl: int, parse: Parser)
    requires Inv(s, parse)
    ensures Inv(Next(s, Lock(c, now), ttl, parse), parse)
  {
    var t := Next(s, Lock(c, now), ttl, parse);
    if t != s {
      if t.calls[c].Fetching? {
        assert forall d <- s.calls :: !Fetcher(s.calls[d]);
        assert c in t.calls && Fetcher(t.calls[c]);
      } else {
        assert SomeFetcher(s) ==> SomeFetcher(t) by {
          if SomeFetcher(s) {
            var d :| d in s.calls && Fetcher(s.calls[d]);
            assert d in t.calls && Fetcher(t.calls[d]);
          }
        }
      }
      OthersOk(s, t, c, parse);
    }
  }

  lemma FetchKeeps(s: State, c: Caller, snapshot: Option<Snapshot>, ttl: int, parse: Parser)
    requires Inv(s, parse)
    ensures Inv(Next(s, Fetch(c, snapshot), ttl, parse), parse)
  {
    var t := Next(s, Fetch(c, snapshot), ttl, parse);
    if c in s.calls && s.calls[c].Fetching? {
      assert CallOk(s, s.calls[c], parse);
      assert c in t.calls && Fetcher(t.calls[c]);
      if t.calls[c].Ready? {
        assert snapshot.value in t.fetched;
        assert Genuine(t.calls[c].listing, t.fetched, parse);
      }
      OthersOk(s, t, c, parse);
      if s.verified { GenuineGrows(s.cached, s.fetched, t.fetched, parse); }
    }
  }

  lemma PublishKeeps(s: State, c: Caller, now: int, ttl: int, parse: Parser)
    requires Inv(s, parse)
    ensures Inv(Next(s, Publish(c, now), ttl, parse), parse)
  {
    var t := Next(s, Publish(c, now), ttl, parse);
    if c in s.calls && s.calls[c].Ready? {
      assert CallOk(s, s.calls[c], parse);
      assert c in t.calls && Fetcher(t.calls[c]);
      OthersOk(s, t, c, parse);
    }
  }

  lemma FinishKeeps(s: State, c: Caller, ttl: int, parse: Parser)
    requires Inv(s, parse)
    ensures Inv(Next(s, Finish(c), ttl, parse), parse)
  {
    var t := Next(s, Finish(c), ttl, parse);
    if c in s.calls && (s.calls[c].Failing? || s.calls[c].Published?) {
      assert CallOk(s, s.calls[c], parse);
      assert s.closed + [s.calls[c].done] == t.closed;
      assert s.calls[c].done in t.closed;
      OthersOk(s, t, c, parse);
      assert forall d <- t.calls :: !Fetcher(t.calls[d]);
    }
  }

  lemma WaitKeeps(s: State, step: Step, ttl: int, parse: Parser)
    requires Inv(s, parse) && (step.Call? || step.Cancel? || step.Wake?)
    ensures Inv(Next(s, step, ttl, parse), parse)
  {
    var t := Next(s, step, ttl, parse);
    if t != s {
      OthersOk(s, t, step.c, parse);
      assert SomeFetcher(s) ==> SomeFetcher(t) by {
        if SomeFetcher(s) {
          var d :| d in s.calls && Fetcher(s.calls[d]);
          assert d in t.calls && Fetcher(t.calls[d]);
        }
      }
    }
  }

  lemma StepKeeps(s: State, step: Step, ttl: int, parse: Parser)
    requires Inv(s, parse)
    ensures Inv(Next(s, step, ttl, parse), parse)
  {
    match step
    case Lock(c, now) => LockKeeps(s, c, now, ttl, parse);
    case Fetch(c, snapshot) => FetchKeeps(s, c, snapshot, ttl, parse);
    case Publish(c, now) => PublishKeeps(s, c, now, ttl, parse);
    case Finish(c) => FinishKeeps(s, c, ttl, parse);
    case _ => WaitKeeps(s, step, ttl, parse);
  }

  /** Over every interleaving: at most one call is fetching, refreshing is set exactly while one is, every done channel
      is closed at most once, and every successful result is the parse of a signature-verified snapshot. */
  lemma {:induction false} EveryRun(steps: seq<Step>, ttl: int, parse: Parser)
    ensures Inv(Run(steps, ttl, parse), parse)
  {
    if steps != [] {
      var n := |steps| - 1;
      EveryRun(steps[..n], ttl, parse);
      StepKeeps(Run(steps[..n], ttl, parse), steps[n], ttl, parse);
    }
  }

  /** No call waits in vain: the channel it waits on is closed already, or one call is fetching that will close it. */
  lemma NobodyWaitsInVain(steps: seq<Step>, ttl: int, parse: Parser, c: Caller)
    requires var s := Run(steps, ttl, parse); c in s.calls && s.calls[c].Waiting?
    ensures var s := Run(steps, ttl, parse);
            s.calls[c].wait in s.closed
            || exists f :: f in s.calls && Fetcher(s.calls[f]) && s.calls[f].done == s.calls[c].wait
  {
    EveryRun(steps, ttl, parse);
    var s := Run(steps, ttl, parse);
    assert CallOk(s, s.calls[c], parse);
    if s.calls[c].wait !in s.closed {
      var f :| f in s.calls && Fetcher(s.calls[f]);
      assert CallOk(s, s.calls[f], parse);
    }
  }

  /** A call that returns from the cache returns a listing published less than the time to live ago. */
  lemma CacheAnswersAreFresh(s: State, c: Caller, now: int, ttl: int, parse: Parser)
    requires c in s.calls && s.calls[c].Entering? && Next(s, Lock(c, now), ttl, parse).calls[c].Returned?
    ensures s.fetchedAt <= now < s.fetchedAt + ttl
    ensures Next(s, Lock(c, now), ttl, parse).calls[c].result == Some(s.cached) && s.cached.regions != []
  {
  }

  /** A call is answered from the cache exactly while there is a verified, non-empty listing of the right age. */
  lemma CacheHitIff(s: State, c: Caller, now: int, ttl: int, parse: Parser)
    requires c in s.calls && s.calls[c].Entering?
    ensures Next(s, Lock(c, now), ttl, parse).calls[c] == Returned(Some(s.cached))
       <==> s.cached.regions != [] && s.verified && ttl > 0 && s.fetchedAt <= now < s.fetchedAt + ttl
  {
  }

  /** The fetcher publishes and returns what its verified snapshot parses to. */
  lemma FetcherAnswers(s: State, c: Caller, snapshot: Snapshot, listing: Listing, now: int, ttl: int, parse: Parser)
    requires c in s.calls && s.calls[c].Fetching? && snapshot.signatureVerified
    requires parse(snapshot.payload, snapshot.hint) == Some(listing)
    ensures var t := Next(Next(Next(s, Fetch(c, Some(snapshot)), ttl, parse), Publish(c, now), ttl, parse),
                          Finish(c), ttl, parse);
            && t.calls[c] == Returned(Some(listing)) && t.refreshing == None
            && t.cached == listing && t.verified && t.fetchedAt == now
  {
  }

  predicate NoPublish(steps: seq<Step>) { forall step <- steps :: !step.Publish? }

  lemma {:induction false} CacheKept(s: State, steps: seq<Step>, ttl: int, parse: Parser)
    requires NoPublish(steps)
    ensures var t := RunFrom(s, steps, ttl, parse);
            t.cached == s.cached && t.verified == s.verified && t.fetchedAt == s.fetchedAt
  {
    if steps != [] {
      CacheKept(s, steps[..|steps| - 1], ttl, parse);
      assert steps[|steps| - 1] in steps;
    }
  }

  /** Whatever the other callers do meanwhile, short of publishing, a call within the time to live after a publication
      gets that very listing. */
  lemma PublishedIsServed(s: State, publisher: Caller, at: int, steps: seq<Step>, c: Caller, now: int, ttl: int,
                          parse: Parser)
    requires publisher in s.calls && s.calls[publisher].Ready? && s.calls[publisher].listing.regions != []
    requires NoPublish(steps)
    requires at <= now < at + ttl
    requires var t := RunFrom(Next(s, Publish(publisher, at), ttl, parse), steps, ttl, parse);
             c in t.calls && t.calls[c].Entering?
    ensures var t := RunFrom(Next(s, Publish(publisher, at), ttl, parse), steps, ttl, parse);
            Next(t, Lock(c, now), ttl, parse).calls[c] == Returned(Some(s.calls[publisher].listing))
  {
    CacheKept(Next(s, Publish(publisher, at), ttl, parse), steps, ttl, parse);
  }

  // ---------------------------------------------------------------- copies

  datatype Region = Region(id: string, servers: array<string>)

  method CloneServers(a: array<string>) returns (b: array<string>)
    ensures fresh(b) && b[..] == a[..]
  {
    b := new string[a.Length](i requires 0 <= i < a.Length reads a => a[i]);
  }

  /** cloneRegions: the same listing, in memory nobody else holds. */
  method CloneRegions(regions: seq<Region>) returns (result: seq<Region>)
    ensures |result| == |regions|
    ensures forall i :: 0 <= i < |result| ==> result[i].id == regions[i].id && result[i].servers[..] == regions[i].servers[..]
    ensures forall i :: 0 <= i < |result| ==> fresh(result[i].servers)
  {
    result := [];
    for i := 0 to |regions|
      invariant |result| == i
      invariant forall k :: 0 <= k < i ==> fresh(result[k].servers)
      invariant forall k :: 0 <= k < i ==> result[k].id == regions[k].id && result[k].servers[..] == regions[k].servers[..]
    {
      var servers := CloneServers(regions[i].servers);
      result := result + [Region(regions[i].id, servers)];
    }
  }

  /** A caller's write into a listing it was given. */
  datatype Write = Write(region: nat, server: nat, text: string)

  method Tamper(answer: seq<Region>, writes: seq<Write>)
    modifies set r <- answer :: r.servers
  {
    for i := 0 to |writes| {
      var w := writes[i];
      if w.region < |answer| && w.server < answer[w.region].servers.Length {
        assert answer[w.region] in answer;
        answer[w.region].servers[w.server] := w.text;
      }
    }
  }

  /** Whatever callers write into the listings they were given, every later answer is still the cached listing; so the
      steps above may treat a listing as a value. */
  method AnswersAfterTampering(cached: seq<Region>, rounds: seq<seq<Write>>) returns (answer: seq<Region>)
    ensures |answer| == |cached|
    ensures forall i :: 0 <= i < |cached| ==>
              answer[i].id == cached[i].id && answer[i].servers[..] == cached[i].servers[..] == old(cached[i].servers[..])
  {
    for k := 0 to |rounds|
      invariant forall i :: 0 <= i < |cached| ==> cached[i].servers[..] == old(cached[i].servers[..])
    {
      var given := CloneRegions(cached);
      Tamper(given, rounds[k]);
    }
    answer := CloneRegions(cached);
  }
}
