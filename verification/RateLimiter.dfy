/** The notification rate limiter (internal/eventbus/filter.go): it forgets keys whose cooldown is over, and must
    answer as if it never forgot anything. Times are instants on one clock. */
module RateLimiter {
  import opened Text

  /** The event type, a colon, the source. */
  datatype Key = Key(text: string)

  function KeyOf(eventType: string, source: string): Key { Key(eventType + ":" + source) }

  /** Event types hold no colon, so different events never share a key. */
  lemma KeysDiffer(t1: string, s1: string, t2: string, s2: string)
    requires Free(t1, ':') && Free(t2, ':') && KeyOf(t1, s1) == KeyOf(t2, s2)
    ensures t1 == t2 && s1 == s2
  {
    CutAt(t1, ':', s1);
    CutAt(t2, ':', s2);
  }

  datatype Request = Request(key: Key, now: int)

  // ---------------------------------------------------------------- the limiter that never forgets

  predicate Due(sent: map<Key, int>, r: Request, cooldown: int) {
    r.key !in sent || r.now - sent[r.key] >= cooldown
  }

  function Note(sent: map<Key, int>, r: Request, cooldown: int): map<Key, int> {
    if Due(sent, r, cooldown) then sent[r.key := r.now] else sent
  }

  /** What it has noted after these requests. */
  function Noted(rs: seq<Request>, cooldown: int): map<Key, int> {
    if rs == [] then map[] else Note(Noted(rs[..|rs| - 1], cooldown), rs[|rs| - 1], cooldown)
  }

  // ---------------------------------------------------------------- the limiter that prunes

  /** What is kept, and when it was last swept; no sweep yet is the zero time, further back than any cooldown. */
  datatype State = State(sent: map<Key, int>, lastPrune: Option<int>)

  /** pruneLocked. */
  function Swept(s: State, now: int, cooldown: int): State {
    if s.lastPrune.Some? && now - s.lastPrune.value < cooldown then s
    else State(map k | k in s.sent && now - s.sent[k] < cooldown :: s.sent[k], Some(now))
  }

  /** Whether the request is allowed. */
  predicate Allowed(s: State, r: Request, cooldown: int) { Due(Swept(s, r.now, cooldown).sent, r, cooldown) }

  function Ask(s: State, r: Request, cooldown: int): State {
    var t := Swept(s, r.now, cooldown);
    t.(sent := Note(t.sent, r, cooldown))
  }

  function Run(rs: seq<Request>, cooldown: int): State {
    if rs == [] then State(map[], None) else Ask(Run(rs[..|rs| - 1], cooldown), rs[|rs| - 1], cooldown)
  }

  class RateLimiter {
    var lastSent: map<Key, int>
    var lastPrune: Option<int>
    const cooldown: int

    function Now(): State
      reads this
    {
      State(lastSent, lastPrune)
    }

    constructor (cooldown: int)
      ensures Now() == Run([], cooldown) && this.cooldown == cooldown
    {
      this.cooldown := cooldown;
      lastSent, lastPrune := map[], None;
    }

    method Prune(now: int)
      modifies this
      ensures Now() == Swept(old(Now()), now, cooldown)
    {
      if lastPrune.Some? && now - lastPrune.value < cooldown { return; }
      lastPrune := Some(now);
      var keys := lastSent.Keys;
      while keys != {}
        invariant lastPrune == Some(now) && keys <= lastSent.Keys
        invariant forall k :: k in lastSent <==> k in old(lastSent) && (k in keys || now - old(lastSent)[k] < cooldown)
        invariant forall k <- lastSent :: lastSent[k] == old(lastSent)[k]
        decreases keys
      {
        var k :| k in keys;
        keys := keys - {k};
        if now - lastSent[k] >= cooldown { lastSent := lastSent - {k}; }
      }
    }

    method Allow(eventType: string, source: string, now: int) returns (ok: bool)
      modifies this
      ensures ok == Allowed(old(Now()), Request(KeyOf(eventType, source), now), cooldown)
      ensures Now() == Ask(old(Now()), Request(KeyOf(eventType, source), now), cooldown)
    {
      var key := KeyOf(eventType, source);
      Prune(now);
      if key in lastSent && now - lastSent[key] < cooldown { return false; }
      lastSent := lastSent[key := now];
      ok := true;
    }
  }

  // ---------------------------------------------------------------- forgetting makes no difference

  predicate Ordered(rs: seq<Request>) { forall i, j :: 0 <= i < j < |rs| ==> rs[i].now <= rs[j].now }

  /** Everything kept is as noted; everything noted is kept unless it had expired at the last sweep; everything kept
      had not expired then; and the last sweep is less than a cooldown ago. */
  ghost predicate Sound(s: State, noted: map<Key, int>, last: int, cooldown: int) {
    && (forall k <- s.sent :: k in noted && noted[k] == s.sent[k])
    && (forall k <- noted :: noted[k] <= last)
    && s.lastPrune.Some? && s.lastPrune.value <= last < s.lastPrune.value + cooldown
    && (forall k <- noted :: k !in s.sent ==> s.lastPrune.value - noted[k] >= cooldown)
    && (forall k <- s.sent :: s.lastPrune.value - s.sent[k] < cooldown)
  }

  lemma SweptSound(s: State, noted: map<Key, int>, last: int, now: int, cooldown: int)
    requires cooldown > 0 && Sound(s, noted, last, cooldown) && last <= now
    ensures Sound(Swept(s, now, cooldown), noted, now, cooldown)
  {
  }

  lemma AskSound(s: State, noted: map<Key, int>, last: int, r: Request, cooldown: int)
    requires cooldown > 0 && Sound(s, noted, last, cooldown) && last <= r.now
    ensures Allowed(s, r, cooldown) == Due(noted, r, cooldown)
    ensures Sound(Ask(s, r, cooldown), Note(noted, r, cooldown), r.now, cooldown)
  {
    SweptSound(s, noted, last, r.now, cooldown);
  }

  lemma {:induction false} RunSound(rs: seq<Request>, cooldown: int)
    requires cooldown > 0 && rs != [] && Ordered(rs)
    ensures Sound(Run(rs, cooldown), Noted(rs, cooldown), rs[|rs| - 1].now, cooldown)
  {
    var n := |rs| - 1;
    if n > 0 {
      RunSound(rs[..n], cooldown);
      AskSound(Run(rs[..n], cooldown), Noted(rs[..n], cooldown), rs[n - 1].now, rs[n], cooldown);
    } else {
      assert rs[..n] == [];
    }
  }

  /** For requests in order of time, the limiter answers as the one that never forgets. */
  lemma SameAnswers(rs: seq<Request>, r: Request, cooldown: int)
    requires cooldown > 0 && Ordered(rs + [r])
    ensures Allowed(Run(rs, cooldown), r, cooldown) == Due(Noted(rs, cooldown), r, cooldown)
  {
    if rs != [] {
      var n := |rs| - 1;
      assert (rs + [r])[n] == rs[n] && (rs + [r])[n + 1] == r;
      assert forall i :: 0 <= i < |rs| ==> (rs + [r])[i] == rs[i];
      RunSound(rs, cooldown);
      AskSound(Run(rs, cooldown), Noted(rs, cooldown), rs[n].now, r, cooldown);
    }
  }

  /** And it keeps nothing older than twice the cooldown. */
  lemma KeepsNothingOld(rs: seq<Request>, cooldown: int, k: Key)
    requires cooldown > 0 && rs != [] && Ordered(rs) && k in Run(rs, cooldown).sent
    ensures 0 <= rs[|rs| - 1].now - Run(rs, cooldown).sent[k] < 2 * cooldown
  {
    RunSound(rs, cooldown);
  }

  // ---------------------------------------------------------------- when forgetting does make a difference

  predicate Sweeps(last: Option<int>, now: int, cooldown: int) { last.None? || now - last.value >= cooldown }

  /** The instant of the last sweep, from the instants of the requests alone. */
  function LastSweep(rs: seq<Request>, cooldown: int): Option<int> {
    if rs == [] then None
    else
      var before := LastSweep(rs[..|rs| - 1], cooldown);
      if Sweeps(before, rs[|rs| - 1].now, cooldown) then Some(rs[|rs| - 1].now) else before
  }

  lemma {:induction false} SweepsKnown(rs: seq<Request>, cooldown: int)
    ensures Run(rs, cooldown).lastPrune == LastSweep(rs, cooldown)
  {
    if rs != [] {
      SweepsKnown(rs[..|rs| - 1], cooldown);
    }
  }

  /** Request i came after the key was last noted, swept, and carried an instant at or past the end of its cooldown. */
  ghost predicate OvertakenAt(rs: seq<Request>, cooldown: int, k: Key, i: nat) {
    var noted := Noted(rs, cooldown);
    && i < |rs| && k in noted
    && k in Noted(rs[..i], cooldown) && Noted(rs[..i], cooldown)[k] == noted[k]
    && Sweeps(LastSweep(rs[..i], cooldown), rs[i].now, cooldown)
    && rs[i].now >= noted[k] + cooldown
  }

  ghost predicate Overtaken(rs: seq<Request>, cooldown: int, k: Key) {
    exists i: nat :: OvertakenAt(rs, cooldown, k, i)
  }

  /** The request falls inside the cooldown of a key that a sweep carrying a later instant has overtaken. */
  ghost predicate TooLate(rs: seq<Request>, r: Request, cooldown: int) {
    && r.key in Noted(rs, cooldown) && r.now < Noted(rs, cooldown)[r.key] + cooldown
    && Overtaken(rs, cooldown, r.key)
  }

  /** The limiter answers this request as the one that never forgets. */
  predicate Agrees(rs: seq<Request>, r: Request, cooldown: int) {
    Allowed(Run(rs, cooldown), r, cooldown) == Due(Noted(rs, cooldown), r, cooldown)
  }

  /** Every request, seen after those before it. */
  ghost predicate Each(rs: seq<Request>, p: (seq<Request>, Request) -> bool) {
    forall i :: 0 <= i < |rs| ==> p(rs[..i], rs[i])
  }

  lemma EachNext(rs: seq<Request>, p: (seq<Request>, Request) -> bool)
    requires rs != []
    ensures var n := |rs| - 1; Each(rs, p) <==> Each(rs[..n], p) && p(rs[..n], rs[n])
  {
    var n := |rs| - 1;
    assert forall i :: 0 <= i < n ==> rs[..n][..i] == rs[..i];
  }

  ghost predicate AllAgree(rs: seq<Request>, cooldown: int) {
    Each(rs, (before, r) => Agrees(before, r, cooldown))
  }

  lemma {:induction false} NotedGrows(rs: seq<Request>, cooldown: int, k: Key, i: nat)
    requires cooldown > 0 && i <= |rs| && k in Noted(rs[..i], cooldown)
    ensures k in Noted(rs, cooldown) && Noted(rs[..i], cooldown)[k] <= Noted(rs, cooldown)[k]
    decreases |rs|
  {
    if i == |rs| {
      assert rs[..i] == rs;
    } else {
      var n := |rs| - 1;
      assert rs[..n][..i] == rs[..i];
      NotedGrows(rs[..n], cooldown, k, i);
    }
  }

  /** A key noted anew has not been overtaken. */
  lemma NotedAnew(rs: seq<Request>, cooldown: int, k: Key)
    requires cooldown > 0 && rs != [] && rs[|rs| - 1].key == k
    requires Due(Noted(rs[..|rs| - 1], cooldown), rs[|rs| - 1], cooldown)
    ensures !Overtaken(rs, cooldown, k)
  {
    var n := |rs| - 1;
    forall i | 0 <= i < |rs| && k in Noted(rs[..i], cooldown)
      ensures Noted(rs[..i], cooldown)[k] < Noted(rs, cooldown)[k]
    {
      assert rs[..n][..i] == rs[..i];
      NotedGrows(rs[..n], cooldown, k, i);
    }
  }

  /** Otherwise the last request overtakes it, or it had been overtaken before. */
  lemma OvertakenNext(rs: seq<Request>, cooldown: int, k: Key)
    requires rs != [] && k in Noted(rs[..|rs| - 1], cooldown)
    requires Noted(rs, cooldown)[k] == Noted(rs[..|rs| - 1], cooldown)[k]
    ensures var n := |rs| - 1;
            Overtaken(rs, cooldown, k) <==> Overtaken(rs[..n], cooldown, k) || OvertakenAt(rs, cooldown, k, n)
  {
    var n := |rs| - 1;
    forall i: nat | i < n ensures OvertakenAt(rs, cooldown, k, i) <==> OvertakenAt(rs[..n], cooldown, k, i) {
      OvertakenSame(rs, cooldown, k, i);
    }
    forall i: nat | i > n ensures !OvertakenAt(rs, cooldown, k, i) && !OvertakenAt(rs[..n], cooldown, k, i) {
    }
    assert !OvertakenAt(rs[..n], cooldown, k, n);
  }

  lemma OvertakenSame(rs: seq<Request>, cooldown: int, k: Key, i: nat)
    requires i < |rs| - 1 && k in Noted(rs[..|rs| - 1], cooldown)
    requires Noted(rs, cooldown)[k] == Noted(rs[..|rs| - 1], cooldown)[k]
    ensures OvertakenAt(rs, cooldown, k, i) <==> OvertakenAt(rs[..|rs| - 1], cooldown, k, i)
  {
    assert rs[..|rs| - 1][..i] == rs[..i];
  }

  /** While all answers agree, what is kept is what was noted and not overtaken. */
  lemma {:induction false} KeptUnlessOvertaken(rs: seq<Request>, cooldown: int, k: Key)
    requires cooldown > 0 && AllAgree(rs, cooldown)
    ensures var sent, noted := Run(rs, cooldown).sent, Noted(rs, cooldown);
            && (k in sent ==> k in noted && noted[k] == sent[k])
            && (k in noted ==> (k !in sent <==> Overtaken(rs, cooldown, k)))
  {
    if rs != [] {
      var n := |rs| - 1;
      var pre, r := rs[..n], rs[n];
      EachNext(rs, (before, next) => Agrees(before, next, cooldown));
      KeptUnlessOvertaken(pre, cooldown, k);
      SweepsKnown(pre, cooldown);
      if k == r.key && Due(Noted(pre, cooldown), r, cooldown) {
        NotedAnew(rs, cooldown, k);
      } else if k in Noted(pre, cooldown) {
        OvertakenNext(rs, cooldown, k);
      }
    }
  }

  /** While all answers agreed so far, the next one differs exactly when the request falls inside the cooldown of a key
      that a sweep with a later instant has overtaken. */
  lemma DiffersIff(rs: seq<Request>, r: Request, cooldown: int)
    requires cooldown > 0 && AllAgree(rs, cooldown)
    ensures !Agrees(rs, r, cooldown) <==> TooLate(rs, r, cooldown)
  {
    KeptUnlessOvertaken(rs, cooldown, r.key);
  }

  ghost predicate NoneTooLate(rs: seq<Request>, cooldown: int) {
    Each(rs, (before, r) => !TooLate(before, r, cooldown))
  }

  /** Over every run, in whatever order requests reach the lock: every answer is that of the limiter that never forgets
      if and only if no request is too late in that sense, which the requests alone decide. */
  lemma {:induction false} AllAgreeIff(rs: seq<Request>, cooldown: int)
    requires cooldown > 0
    ensures AllAgree(rs, cooldown) <==> NoneTooLate(rs, cooldown)
  {
    if rs != [] {
      var n := |rs| - 1;
      AllAgreeIff(rs[..n], cooldown);
      EachNext(rs, (before, r) => Agrees(before, r, cooldown));
      EachNext(rs, (before, r) => !TooLate(before, r, cooldown));
      if AllAgree(rs[..n], cooldown) {
        DiffersIff(rs[..n], rs[n], cooldown);
      }
    }
  }

  /** With requests out of order a swept key can be sent again too early: after 100 and 110, a request at 105. */
  lemma OutOfOrderDiffers(a: Key, b: Key)
    requires a != b
    ensures var rs := [Request(a, 100), Request(b, 110)];
            Allowed(Run(rs, 10), Request(a, 105), 10) && !Due(Noted(rs, 10), Request(a, 105), 10)
  {
    var one, rs := [Request(a, 100)], [Request(a, 100), Request(b, 110)];
    assert one[..0] == [] && rs[..1] == one;
    var s := Run(one, 10);
    assert Run(one[..0], 10) == State(map[], None);
    assert s == Ask(State(map[], None), one[0], 10);
    assert Swept(State(map[], None), 100, 10).sent == map[];
    assert s.sent == map[a := 100] && s.lastPrune == Some(100);
    var t := Swept(s, 110, 10);
    assert t.sent == map[] && t.lastPrune == Some(110);
    assert Run(rs, 10) == Ask(s, rs[1], 10) && Run(rs, 10).sent == map[b := 110];
    assert Noted(one, 10) == map[a := 100];
    assert Noted(rs, 10) == map[a := 100, b := 110];
  }
}
