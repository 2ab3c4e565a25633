/** The session table of one forwarded UDP port (internal/amneziawgnet/portfwd_udp.go): a single reader
    goroutine makes sessions, a pump per session deletes by key alone, and Close swaps the table out. */
module ForwardTable {

  type Addr = nat
  type Sid = nat

  datatype Reader =
    | Idle
    | Looking(src: Addr)
    | Dialing(src: Addr)
    | Publishing(src: Addr, made: Sid)
    | Spawning(src: Addr, made: Sid)
    | Stopped

  datatype Pump = Reading(src: Addr) | Retired(src: Addr)

  datatype Closer = NotCalled | Swapped(swept: set<Sid>) | SessionsClosed | SocketClosed

  datatype State = State(
    sessions: map<Addr, Sid>, open: set<Sid>, next: Sid, reader: Reader, pumps: map<Sid, Pump>, closer: Closer)

  const START := State(map[], {}, 0, Idle, map[], NotCalled)

  datatype Step =
    | Receive(src: Addr) | ReadFails | Lookup | DialFails | Dial | Publish | Spawn
    | Retire(sid: Sid) | ClosePump(sid: Sid)
    | Swap | CloseSwept | CloseSocket

  predicate Enabled(s: State, step: Step) {
    match step
    case Receive(_) => s.reader.Idle? && !s.closer.SocketClosed?
    case ReadFails => s.reader.Idle?
    case Lookup => s.reader.Looking?
    case DialFails => s.reader.Dialing?
    case Dial => s.reader.Dialing?
    case Publish => s.reader.Publishing?
    case Spawn => s.reader.Spawning?
    case Retire(sid) => sid in s.pumps && s.pumps[sid].Reading?
    case ClosePump(sid) => sid in s.pumps && s.pumps[sid].Retired?
    case Swap => s.closer.NotCalled?
    case CloseSwept => s.closer.Swapped?
    case CloseSocket => s.closer.SessionsClosed?
  }

  function Apply(s: State, step: Step): State
    requires Enabled(s, step)
  {
    match step
    case Receive(src) => s.(reader := Looking(src))
    case ReadFails => s.(reader := Stopped)
    case Lookup => s.(reader := if s.reader.src in s.sessions then Idle else Dialing(s.reader.src))
    case DialFails => s.(reader := Idle)
    case Dial => s.(reader := Publishing(s.reader.src, s.next), open := s.open + {s.next}, next := s.next + 1)
    case Publish =>
      s.(reader := Spawning(s.reader.src, s.reader.made), sessions := s.sessions[s.reader.src := s.reader.made])
    case Spawn => s.(reader := Idle, pumps := s.pumps[s.reader.made := Reading(s.reader.src)])
    case Retire(sid) =>
      s.(sessions := s.sessions - {s.pumps[sid].src}, pumps := s.pumps[sid := Retired(s.pumps[sid].src)])
    case ClosePump(sid) => s.(pumps := s.pumps - {sid}, open := s.open - {sid})
    case Swap => s.(closer := Swapped(s.sessions.Values), sessions := map[])
    case CloseSwept => s.(closer := SessionsClosed, open := s.open - s.closer.swept)
    case CloseSocket => s.(closer := SocketClosed)
  }

  ghost predicate Runs(s: State, steps: seq<Step>)
    decreases |steps|
  {
    steps == [] || (Enabled(s, steps[0]) && Runs(Apply(s, steps[0]), steps[1..]))
  }

  ghost function Run(s: State, steps: seq<Step>): State
    requires Runs(s, steps)
    decreases |steps|
  {
    if steps == [] then s else Run(Apply(s, steps[0]), steps[1..])
  }

  lemma {:induction false} RunAppend(s: State, a: seq<Step>, b: seq<Step>)
    requires Runs(s, a) && Runs(Run(s, a), b)
    ensures Runs(s, a + b) && Run(s, a + b) == Run(Run(s, a), b)
    decreases |a|
  {
    if a == [] {
      assert a + b == b;
    } else {
      assert (a + b)[1..] == a[1..] + b;
      RunAppend(Apply(s, a[0]), a[1..], b);
    }
  }

  // ---------------------------------------------------------------- invariants

  predicate Holds(r: Reader, sid: Sid) { (r.Publishing? || r.Spawning?) && r.made == sid }

  predicate Tended(s: State, src: Addr, sid: Sid) {
    (sid in s.pumps && s.pumps[sid] == Reading(src)) || s.reader == Spawning(src, sid)
  }

  /** True throughout, closed or not. */
  ghost predicate Inv(s: State) {
    && (forall sid <- s.pumps :: sid < s.next)
    && (forall sid: Sid :: Holds(s.reader, sid) ==> sid < s.next && sid !in s.pumps)
    && (forall sid <- s.open :: sid in s.pumps || Holds(s.reader, sid))
    && (forall src <- s.sessions :: Tended(s, src, s.sessions[src]))
    && (s.reader.Dialing? || s.reader.Publishing? ==> s.reader.src !in s.sessions)
  }

  predicate Published(s: State, src: Addr, sid: Sid) { src in s.sessions && s.sessions[src] == sid }

  /** The table holds every session whose pump still runs. */
  ghost predicate Matches(s: State) {
    && (forall sid <- s.pumps :: s.pumps[sid].Reading? ==> Published(s, s.pumps[sid].src, sid))
    && (s.reader.Spawning? ==> Published(s, s.reader.src, s.reader.made))
  }

  lemma StepKeepsInv(s: State, step: Step)
    requires Inv(s) && Enabled(s, step)
    ensures Inv(Apply(s, step))
  {
    var t := Apply(s, step);
    if s.reader.Publishing? || s.reader.Spawning? {
      assert Holds(s.reader, s.reader.made);
    }
    forall src | src in t.sessions ensures Tended(t, src, t.sessions[src]) {
      if src in s.sessions {
        assert Tended(s, src, s.sessions[src]);
      }
    }
  }

  lemma StepKeepsMatches(s: State, step: Step)
    requires Inv(s) && Matches(s) && Enabled(s, step) && !step.Swap?
    ensures Matches(Apply(s, step))
  {
    var t := Apply(s, step);
    forall sid | sid in t.pumps && t.pumps[sid].Reading? ensures Published(t, t.pumps[sid].src, sid) {
      if sid in s.pumps && s.pumps[sid].Reading? {
        assert Published(s, s.pumps[sid].src, sid);
      }
    }
  }

  lemma {:induction false} RunKeepsInv(s: State, steps: seq<Step>)
    requires Inv(s) && Runs(s, steps)
    ensures Inv(Run(s, steps))
    ensures Matches(s) && Swap !in steps ==> Matches(Run(s, steps))
    decreases |steps|
  {
    if steps != [] {
      StepKeepsInv(s, steps[0]);
      if Matches(s) && Swap !in steps {
        assert steps[0] in steps;
        StepKeepsMatches(s, steps[0]);
      }
      RunKeepsInv(Apply(s, steps[0]), steps[1..]);
    }
  }

  // ---------------------------------------------------------------- before Close

  /** Until Close swaps the table, deleting by key removes exactly the pump's own session. */
  lemma RetireRemovesOwn(steps: seq<Step>, sid: Sid)
    requires Runs(START, steps) && Swap !in steps && Enabled(Run(START, steps), Retire(sid))
    ensures var s := Run(START, steps); var t := Apply(s, Retire(sid));
            && sid in s.sessions.Values
            && (forall src: Addr :: src in t.sessions <==> src in s.sessions && s.sessions[src] != sid)
            && (forall src <- t.sessions :: t.sessions[src] == s.sessions[src])
  {
    RunKeepsInv(START, steps);
    var s := Run(START, steps);
    assert Published(s, s.pumps[sid].src, sid);
    forall src | src in s.sessions && s.sessions[src] == sid ensures src == s.pumps[sid].src {
      assert Tended(s, src, sid);
    }
  }

  /** A session never replaces another one in the table, before Close or after. */
  lemma PublishNeverOverwrites(steps: seq<Step>)
    requires Runs(START, steps) && Enabled(Run(START, steps), Publish)
    ensures Run(START, steps).reader.src !in Run(START, steps).sessions
  {
    RunKeepsInv(START, steps);
  }

  /** Once the reader rests and no pump is left, nothing is open and nothing is published. */
  lemma QuiescentIsEmpty(steps: seq<Step>)
    requires Runs(START, steps)
    requires var s := Run(START, steps); (s.reader.Idle? || s.reader.Stopped?) && s.pumps == map[]
    ensures Run(START, steps).open == {} && Run(START, steps).sessions == map[]
  {
    RunKeepsInv(START, steps);
    var s := Run(START, steps);
    assert forall src <- s.sessions :: Tended(s, src, s.sessions[src]);
  }

  // ---------------------------------------------------------------- after Close

  /** A pump's delete would take another session out of the table. */
  predicate Evicts(s: State, sid: Sid) {
    Enabled(s, Retire(sid)) && s.pumps[sid].src in s.sessions && s.sessions[s.pumps[sid].src] != sid
  }

  ghost predicate CanEvict(s: State) {
    exists steps, sid :: Runs(s, steps) && Evicts(Run(s, steps), sid)
  }

  lemma {:induction false} SwapHappensOnce(s: State, steps: seq<Step>)
    requires Runs(s, steps) && !s.closer.NotCalled?
    ensures Swap !in steps
    decreases |steps|
  {
    if steps != [] {
      SwapHappensOnce(Apply(s, steps[0]), steps[1..]);
      assert steps == [steps[0]] + steps[1..];
    }
  }

  lemma {:induction false} StoppedStaysEmpty(s: State, steps: seq<Step>)
    requires Runs(s, steps) && s.reader.Stopped? && s.sessions == map[]
    ensures Run(s, steps).sessions == map[]
    decreases |steps|
  {
    if steps != [] {
      StoppedStaysEmpty(Apply(s, steps[0]), steps[1..]);
    }
  }

  /** The reader can always come to rest without a pump retiring. */
  lemma Settle(s: State) returns (steps: seq<Step>)
    requires Inv(s) && !s.reader.Stopped?
    ensures Runs(s, steps)
    ensures var t := Run(s, steps);
            && t.reader.Idle? && t.closer == s.closer
            && (t.sessions == s.sessions
                || (s.reader.Publishing? && t.sessions == s.sessions[s.reader.src := s.reader.made]))
            && (forall src: Addr, sid: Sid :: Tended(s, src, sid) ==> Tended(t, src, sid))
  {
    match s.reader {
      case Idle => steps := [];
      case Spawning(src, made) => steps := [Spawn];
      case Dialing(src) => steps := [DialFails];
      case Publishing(src, made) =>
        steps := [Publish, Spawn];
        assert steps[1..] == [Spawn];
        assert Runs(Apply(s, Publish), [Spawn]);
      case Looking(src) =>
        if src in s.sessions {
          steps := [Lookup];
        } else {
          steps := [Lookup, DialFails];
          assert steps[1..] == [DialFails];
          assert Runs(Apply(s, Lookup), [DialFails]);
        }
    }
  }

  lemma Republish(s: State, src: Addr) returns (steps: seq<Step>)
    requires s.reader.Idle? && !s.closer.SocketClosed? && src !in s.sessions
    ensures Runs(s, steps)
    ensures var t := Run(s, steps);
            && t.sessions == s.sessions[src := s.next] && t.pumps == s.pumps
            && t.closer == s.closer && t.reader.Spawning?
  {
    steps := [Receive(src), Lookup, Dial, Publish];
    var s1 := Apply(s, Receive(src));
    var s2 := Apply(s1, Lookup);
    var s3 := Apply(s2, Dial);
    assert steps[1..] == [Lookup, Dial, Publish] && steps[1..][1..] == [Dial, Publish] && [Dial, Publish][1..] == [Publish];
    assert Runs(s3, [Publish]) && Run(s3, [Publish]) == Apply(s3, Publish);
    assert Runs(s2, [Dial, Publish]) && Run(s2, [Dial, Publish]) == Apply(s3, Publish);
    assert Runs(s1, steps[1..]) && Run(s1, steps[1..]) == Apply(s3, Publish);
  }

  lemma EvictionRun(s: State, src: Addr, sid: Sid)
    requires Inv(s) && Tended(s, src, sid) && !Published(s, src, sid)
    requires !s.reader.Stopped? && s.closer.Swapped?
    ensures CanEvict(s)
  {
    var a := Settle(s);
    RunKeepsInv(s, a);
    var t := Run(s, a);
    assert t.pumps[sid] == Reading(src);
    assert !Published(t, src, sid) by {
      if s.reader.Publishing? {
        assert Holds(s.reader, s.reader.made);
      }
    }
    if src in t.sessions {
      assert Evicts(t, sid);
    } else {
      var b := Republish(t, src);
      RunAppend(s, a, b);
      assert Evicts(Run(s, a + b), sid);
    }
  }

  /** After Close has swapped the table out, some continuation lets a pump delete a session that is not its own
      exactly when the table was not empty at the swap and the reader had not stopped. */
  lemma CloseLetsPumpEvictIff(steps: seq<Step>)
    requires Runs(START, steps) && Enabled(Run(START, steps), Swap)
    ensures var s := Run(START, steps);
            CanEvict(Apply(s, Swap)) <==> s.sessions != map[] && !s.reader.Stopped?
  {
    var s := Run(START, steps);
    var t := Apply(s, Swap);
    SwapNotYet(START, steps);
    RunKeepsInv(START, steps);
    StepKeepsInv(s, Swap);
    if s.sessions != map[] && !s.reader.Stopped? {
      var src :| src in s.sessions;
      assert Tended(s, src, s.sessions[src]);
      EvictionRun(t, src, s.sessions[src]);
    } else if CanEvict(t) {
      var more, sid :| Runs(t, more) && Evicts(Run(t, more), sid);
      if s.sessions == map[] {
        EmptySwapMatches(s);
        SwapHappensOnce(t, more);
        RunKeepsInv(t, more);
      } else {
        StoppedStaysEmpty(t, more);
      }
    }
  }

  /** And it happens: one packet from any source before Close is enough. */
  lemma ClosedListenerEvicts(src: Addr)
    ensures exists steps :: Runs(START, steps) && Enabled(Run(START, steps), Swap)
                            && CanEvict(Apply(Run(START, steps), Swap))
  {
    var steps := Republish(START, src);
    CloseLetsPumpEvictIff(steps);
  }

  lemma EmptySwapMatches(s: State)
    requires Matches(s) && s.sessions == map[] && Enabled(s, Swap)
    ensures Matches(Apply(s, Swap))
  {
    assert forall sid <- s.pumps :: s.pumps[sid].Reading? ==> Published(s, s.pumps[sid].src, sid);
  }

  lemma {:induction false} SwapNotYet(s: State, steps: seq<Step>)
    requires Runs(s, steps) && Run(s, steps).closer.NotCalled?
    ensures Swap !in steps
    decreases |steps|
  {
    if steps != [] {
      SwapNotYet(Apply(s, steps[0]), steps[1..]);
      assert steps == [steps[0]] + steps[1..];
      if steps[0].Swap? {
        StaysCalled(Apply(s, steps[0]), steps[1..]);
      }
    }
  }

  lemma {:induction false} StaysCalled(s: State, steps: seq<Step>)
    requires Runs(s, steps) && !s.closer.NotCalled?
    ensures !Run(s, steps).closer.NotCalled?
    decreases |steps|
  {
    if steps != [] {
      StaysCalled(Apply(s, steps[0]), steps[1..]);
    }
  }

  lemma {:induction false} SweptKept(s: State, steps: seq<Step>)
    requires Runs(s, steps) && s.closer.Swapped? && CloseSwept !in steps
    ensures Run(s, steps).closer == s.closer && Run(s, steps).next >= s.next
    decreases |steps|
  {
    if steps != [] {
      assert steps[0] in steps;
      SweptKept(Apply(s, steps[0]), steps[1..]);
    }
  }

  lemma {:induction false} StaysClosed(s: State, steps: seq<Step>, sid: Sid)
    requires Runs(s, steps) && sid < s.next && sid !in s.open
    ensures sid !in Run(s, steps).open
    decreases |steps|
  {
    if steps != [] {
      StaysClosed(Apply(s, steps[0]), steps[1..], sid);
    }
  }

  /** Whatever runs between and after the two halves of Close, every session that the swap took out of the table is
      closed for good. */
  lemma CloseClosesSwept(before: seq<Step>, between: seq<Step>, after: seq<Step>)
    requires Runs(START, before) && Run(START, before).closer.NotCalled?
    requires Runs(Apply(Run(START, before), Swap), between) && CloseSwept !in between
    requires Enabled(Run(Apply(Run(START, before), Swap), between), CloseSwept)
    requires Runs(Apply(Run(Apply(Run(START, before), Swap), between), CloseSwept), after)
    ensures var s := Run(START, before); var t := Run(Apply(s, Swap), between);
            forall src <- s.sessions :: s.sessions[src] !in Run(Apply(t, CloseSwept), after).open
  {
    var s := Run(START, before);
    var t := Run(Apply(s, Swap), between);
    RunKeepsInv(START, before);
    SweptKept(Apply(s, Swap), between);
    forall src | src in s.sessions ensures s.sessions[src] !in Run(Apply(t, CloseSwept), after).open {
      var sid := s.sessions[src];
      assert Tended(s, src, sid);
      assert s.reader == Spawning(src, sid) ==> Holds(s.reader, sid);
      assert sid in s.sessions.Values;
      StaysClosed(Apply(t, CloseSwept), after, sid);
    }
  }
}
