/** The in-process event bus (internal/eventbus/bus.go): publishers, one dispatch goroutine and a worker per
    subscriber. A step is one channel operation or one critical section of the bus mutex. */
module EventBus {
  import opened Text

  type Event = nat

  /** subscriberQueueSize. */
  const QUEUE: nat := 64

  /** One subscriber object, with what it was offered and what became of it. */
  datatype Sub = Sub(
    id: string, queue: seq<Event>, busy: Option<Event>, handled: seq<Event>, dropped: nat,
    offered: seq<Event>, joined: nat, quits: nat, exited: bool)

  /** The dispatch goroutine: holding an event, or handing it out under the read lock. */
  datatype Dispatcher = Waiting | Received(e: Event) | Fanning(e: Event, next: nat) | Gone

  /** `subs` lists the current subscribers by their place in `objects`; an object is never forgotten. */
  datatype Bus = Bus(
    cap: nat, ch: seq<Event>, subs: seq<nat>, objects: seq<Sub>, dispatcher: Dispatcher,
    stopped: bool, done: bool, wg: int, published: seq<Event>, dispatched: seq<Event>)

  function New(cap: nat): Bus { Bus(if cap == 0 then 256 else cap, [], [], [], Waiting, false, false, 1, [], []) }

  datatype Step =
    | Publish(e: Event)
    | Receive | LockForFan | Offer | EndFan | DispatcherExit
    | Take(o: nat) | Finish(o: nat) | WorkerExit(o: nat)
    | Subscribe(id: string) | Unsubscribe(id: string)
    | SetStopped | CloseDone

  predicate Unlocked(b: Bus) { !b.dispatcher.Fanning? }

  predicate Enabled(b: Bus, step: Step) {
    match step
    case Publish(_) => true
    case Receive => b.dispatcher.Waiting? && b.ch != []
    case LockForFan => b.dispatcher.Received?
    case Offer => b.dispatcher.Fanning? && b.dispatcher.next < |b.subs| && b.subs[b.dispatcher.next] < |b.objects|
    case EndFan => b.dispatcher.Fanning? && b.dispatcher.next >= |b.subs|
    case DispatcherExit => b.dispatcher.Waiting? && b.done
    case Take(o) => o < |b.objects| && !b.objects[o].exited && b.objects[o].busy.None? && b.objects[o].queue != []
    case Finish(o) => o < |b.objects| && b.objects[o].busy.Some?
    case WorkerExit(o) =>
      o < |b.objects| && !b.objects[o].exited && b.objects[o].busy.None? && (b.objects[o].quits > 0 || b.done)
    case Subscribe(_) => Unlocked(b)
    case Unsubscribe(_) => Unlocked(b)
    case SetStopped => Unlocked(b) && !b.stopped
    case CloseDone => b.stopped && !b.done
  }

  // ---------------------------------------------------------------- one subscriber

  function OfferTo(s: Sub, e: Event): Sub {
    if |s.queue| < QUEUE then s.(queue := s.queue + [e], offered := s.offered + [e])
    else s.(dropped := s.dropped + 1, offered := s.offered + [e])
  }

  function TakeNext(s: Sub): Sub
    requires s.queue != []
  {
    s.(queue := s.queue[1..], busy := Some(s.queue[0]))
  }

  function FinishBusy(s: Sub): Sub
    requires s.busy.Some?
  {
    s.(handled := s.handled + [s.busy.value], busy := None)
  }

  // ---------------------------------------------------------------- the bus

  function Put(b: Bus, o: nat, s: Sub): Bus
    requires o < |b.objects|
  {
    b.(objects := b.objects[o := s])
  }

  /** The position of the first current subscriber with an id, or the end of the list. */
  function Position(b: Bus, id: string, from: nat): nat
    requires from <= |b.subs|
    decreases |b.subs| - from
  {
    if from == |b.subs| || (b.subs[from] < |b.objects| && b.objects[b.subs[from]].id == id) then from
    else Position(b, id, from + 1)
  }

  /** Close the quit channel of the subscriber with this id, if any, and cut it out of the list. */
  function RemoveId(b: Bus, id: string): Bus {
    var i := Position(b, id, 0);
    if i < |b.subs| && b.subs[i] < |b.objects| then
      var o := b.subs[i];
      Put(b, o, b.objects[o].(quits := b.objects[o].quits + 1)).(subs := b.subs[..i] + b.subs[i + 1..])
    else b
  }

  function NewSub(id: string, joined: nat): Sub { Sub(id, [], None, [], 0, [], joined, 0, false) }

  function Apply(b: Bus, step: Step): Bus
    requires Enabled(b, step)
  {
    match step
    case Publish(e) => b.(ch := if |b.ch| < b.cap then b.ch + [e] else b.ch, published := b.published + [e])
    case Receive => b.(ch := b.ch[1..], dispatcher := Received(b.ch[0]))
    case LockForFan => b.(dispatcher := Fanning(b.dispatcher.e, 0), dispatched := b.dispatched + [b.dispatcher.e])
    case Offer =>
      var o := b.subs[b.dispatcher.next];
      Put(b, o, OfferTo(b.objects[o], b.dispatcher.e)).(dispatcher := Fanning(b.dispatcher.e, b.dispatcher.next + 1))
    case EndFan => b.(dispatcher := Waiting)
    case DispatcherExit => b.(dispatcher := Gone, wg := b.wg - 1)
    case Take(o) => Put(b, o, TakeNext(b.objects[o]))
    case Finish(o) => Put(b, o, FinishBusy(b.objects[o]))
    case WorkerExit(o) => Put(b, o, b.objects[o].(exited := true)).(wg := b.wg - 1)
    case Subscribe(id) =>
      if b.stopped then b
      else
        var c := RemoveId(b, id);
        c.(subs := c.subs + [|c.objects|], objects := c.objects + [NewSub(id, |c.dispatched|)], wg := c.wg + 1)
    case Unsubscribe(id) => RemoveId(b, id)
    case SetStopped => b.(stopped := true)
    case CloseDone => b.(done := true)
  }

  ghost predicate Runs(b: Bus, steps: seq<Step>)
    decreases |steps|
  {
    steps == [] || (Enabled(b, steps[0]) && Runs(Apply(b, steps[0]), steps[1..]))
  }

  ghost function Run(b: Bus, steps: seq<Step>): Bus
    requires Runs(b, steps)
    decreases |steps|
  {
    if steps == [] then b else Run(Apply(b, steps[0]), steps[1..])
  }

  // ---------------------------------------------------------------- invariants of one subscriber

  ghost predicate Subseq(a: seq<Event>, b: seq<Event>)
    decreases |b|
  {
    a == [] ||
    (b != [] && (Subseq(a, b[..|b| - 1])
                 || (a[|a| - 1] == b[|b| - 1] && Subseq(a[..|a| - 1], b[..|b| - 1]))))
  }

  lemma SubseqSkip(a: seq<Event>, b: seq<Event>, e: Event)
    requires Subseq(a, b)
    ensures Subseq(a, b + [e])
  {
    assert (b + [e])[..|b|] == b;
  }

  lemma SubseqKeep(a: seq<Event>, b: seq<Event>, e: Event)
    requires Subseq(a, b)
    ensures Subseq(a + [e], b + [e])
  {
    assert (b + [e])[..|b|] == b && (a + [e])[..|a|] == a;
  }

  function BusySeq(s: Sub): seq<Event> { if s.busy.Some? then [s.busy.value] else [] }

  /** What the subscriber has handled, is handling and still has to handle, in that order. */
  function Backlog(s: Sub): seq<Event> { s.handled + BusySeq(s) + s.queue }

  ghost predicate SubInv(s: Sub) {
    && |s.queue| <= QUEUE
    && Subseq(Backlog(s), s.offered)
    && |s.handled| + |BusySeq(s)| + |s.queue| + s.dropped == |s.offered|
    && (s.exited ==> s.busy.None?)
  }

  lemma OfferKeeps(s: Sub, e: Event)
    requires SubInv(s)
    ensures SubInv(OfferTo(s, e))
  {
    if |s.queue| < QUEUE {
      assert Backlog(OfferTo(s, e)) == Backlog(s) + [e];
      SubseqKeep(Backlog(s), s.offered, e);
    } else {
      assert Backlog(OfferTo(s, e)) == Backlog(s);
      SubseqSkip(Backlog(s), s.offered, e);
    }
  }

  lemma TakeKeeps(s: Sub)
    requires SubInv(s) && s.queue != [] && s.busy.None? && !s.exited
    ensures SubInv(TakeNext(s))
  {
    assert Backlog(TakeNext(s)) == Backlog(s);
  }

  lemma FinishKeeps(s: Sub)
    requires SubInv(s) && s.busy.Some?
    ensures SubInv(FinishBusy(s))
  {
    assert Backlog(FinishBusy(s)) == Backlog(s);
  }

  // ---------------------------------------------------------------- invariants of the bus

  ghost predicate ListInv(b: Bus) {
    && (forall i :: 0 <= i < |b.subs| ==> b.subs[i] < |b.objects|)
    && (forall i, j :: 0 <= i < j < |b.subs| ==> b.objects[b.subs[i]].id != b.objects[b.subs[j]].id)
  }

  /** A quit channel is closed once at most, and exactly when its subscriber has left the list. */
  ghost predicate QuitInv(b: Bus) {
    forall o :: 0 <= o < |b.objects| ==> b.objects[o].quits == if o in b.subs then 0 else 1
  }

  /** How many dispatched events a current subscriber has been offered since it joined. */
  function Reached(b: Bus, i: nat): int {
    if b.dispatcher.Fanning? && i >= b.dispatcher.next then |b.dispatched| - 1 else |b.dispatched|
  }

  predicate FanInv(b: Bus)
    requires b.dispatcher.Fanning?
  {
    b.dispatched != [] && b.dispatched[|b.dispatched| - 1] == b.dispatcher.e && b.dispatcher.next <= |b.subs|
  }

  ghost predicate OfferedInv(b: Bus) {
    && (b.dispatcher.Fanning? ==> FanInv(b))
    && (forall i :: 0 <= i < |b.subs| && b.subs[i] < |b.objects| ==> MemberWindow(b, i))
    && (forall o :: 0 <= o < |b.objects| ==> OfferedWindow(b, b.objects[o]))
  }

  /** A current subscriber was offered everything dispatched since it joined. */
  predicate MemberWindow(b: Bus, i: nat)
    requires i < |b.subs| && b.subs[i] < |b.objects|
  {
    var s := b.objects[b.subs[i]];
    s.joined <= Reached(b, i) <= |b.dispatched| && s.offered == b.dispatched[s.joined..Reached(b, i)]
  }

  /** Every subscriber, gone or not, was offered a stretch of the dispatched events, starting where it joined. */
  predicate OfferedWindow(b: Bus, s: Sub) {
    s.joined + |s.offered| <= |b.dispatched| && s.offered == b.dispatched[s.joined..s.joined + |s.offered|]
  }

  function Pending(b: Bus): seq<Event> { if b.dispatcher.Received? then [b.dispatcher.e] else [] }

  ghost predicate ChannelInv(b: Bus) {
    && |b.ch| <= b.cap
    && Subseq(b.dispatched + Pending(b) + b.ch, b.published)
  }

  function Live(objects: seq<Sub>): nat {
    if objects == [] then 0 else Live(objects[..|objects| - 1]) + (if objects[|objects| - 1].exited then 0 else 1)
  }

  ghost predicate WaitInv(b: Bus) { b.wg == Live(b.objects) + (if b.dispatcher.Gone? then 0 else 1) }

  ghost predicate Inv(b: Bus) {
    && ListInv(b) && QuitInv(b) && OfferedInv(b) && ChannelInv(b) && WaitInv(b)
    && SubsInv(b) && (b.done ==> b.stopped)
  }

  ghost predicate SubsInv(b: Bus) { forall o :: 0 <= o < |b.objects| ==> SubInv(b.objects[o]) }

  // ---------------------------------------------------------------- removal

  lemma {:induction false} PositionFinds(b: Bus, id: string, from: nat)
    requires ListInv(b) && from <= |b.subs|
    ensures var i := Position(b, id, from);
            && from <= i <= |b.subs|
            && (i < |b.subs| ==> b.objects[b.subs[i]].id == id)
            && (forall j :: from <= j < i ==> b.objects[b.subs[j]].id != id)
    decreases |b.subs| - from
  {
    if from < |b.subs| && b.objects[b.subs[from]].id != id {
      PositionFinds(b, id, from + 1);
    }
  }

  /** c is b without its subscriber at position p. */
  ghost predicate CutOut(b: Bus, c: Bus, p: nat) {
    && p < |b.subs| && b.subs[p] < |b.objects|
    && c == b.(subs := b.subs[..p] + b.subs[p + 1..],
               objects := b.objects[b.subs[p] := b.objects[b.subs[p]].(quits := b.objects[b.subs[p]].quits + 1)])
  }

  function Skip(p: nat, i: nat): nat { if i < p then i else i + 1 }

  lemma CutOutSubs(b: Bus, c: Bus, p: nat)
    requires CutOut(b, c, p)
    ensures |c.subs| == |b.subs| - 1 && forall i :: 0 <= i < |c.subs| ==> c.subs[i] == b.subs[Skip(p, i)]
  {
  }

  lemma CutOutList(b: Bus, c: Bus, p: nat)
    requires CutOut(b, c, p) && ListInv(b)
    ensures ListInv(c)
    ensures forall i :: 0 <= i < |c.subs| ==> c.objects[c.subs[i]].id != b.objects[b.subs[p]].id
  {
    CutOutSubs(b, c, p);
  }

  lemma CutOutQuits(b: Bus, c: Bus, p: nat)
    requires CutOut(b, c, p) && ListInv(b) && QuitInv(b)
    ensures QuitInv(c)
  {
    forall q | 0 <= q < |c.objects| ensures c.objects[q].quits == if q in c.subs then 0 else 1 {
      CutOutMembers(b, c, p, q);
    }
  }

  lemma CutOutMembers(b: Bus, c: Bus, p: nat, q: nat)
    requires CutOut(b, c, p) && ListInv(b)
    ensures q in c.subs <==> q in b.subs && q != b.subs[p]
  {
    CutOutSubs(b, c, p);
    if q in b.subs && q != b.subs[p] {
      var i :| 0 <= i < |b.subs| && b.subs[i] == q;
      assert c.subs[if i < p then i else i - 1] == q;
    }
    if q in c.subs {
      var i :| 0 <= i < |c.subs| && c.subs[i] == q;
      assert b.subs[Skip(p, i)] == q;
    }
  }

  lemma CutOutOffered(b: Bus, c: Bus, p: nat)
    requires CutOut(b, c, p) && ListInv(b) && OfferedInv(b) && Unlocked(b)
    ensures OfferedInv(c)
  {
    CutOutSubs(b, c, p);
    forall i | 0 <= i < |c.subs| && c.subs[i] < |c.objects|
      ensures MemberWindow(c, i)
    {
      assert c.subs[i] == b.subs[Skip(p, i)];
      assert MemberWindow(b, Skip(p, i));
    }
    forall o | 0 <= o < |c.objects| ensures OfferedWindow(c, c.objects[o]) {
      assert OfferedWindow(b, b.objects[o]);
    }
  }

  lemma CutOutKeeps(b: Bus, c: Bus, p: nat)
    requires CutOut(b, c, p) && Inv(b) && Unlocked(b)
    ensures Inv(c)
  {
    CutOutList(b, c, p);
    CutOutQuits(b, c, p);
    CutOutOffered(b, c, p);
    CutOutRest(b, c, p);
  }

  lemma CutOutRest(b: Bus, c: Bus, p: nat)
    requires CutOut(b, c, p) && SubsInv(b) && WaitInv(b)
    ensures SubsInv(c) && WaitInv(c)
  {
    LiveSame(b.objects, c.objects);
    forall q | 0 <= q < |c.objects| ensures SubInv(c.objects[q]) {
      assert SubInv(b.objects[q]) && Backlog(c.objects[q]) == Backlog(b.objects[q]);
    }
  }

  ghost predicate NoneNamed(b: Bus, id: string) {
    forall i :: 0 <= i < |b.subs| && b.subs[i] < |b.objects| ==> b.objects[b.subs[i]].id != id
  }

  /** Removing an id cuts its subscriber out of the list, if there is one, and leaves no subscriber with that id. */
  lemma RemoveIdCuts(b: Bus, id: string)
    requires ListInv(b)
    ensures var c, p := RemoveId(b, id), Position(b, id, 0); NoneNamed(c, id) && (c == b || CutOut(b, c, p))
    ensures |RemoveId(b, id).objects| == |b.objects|
  {
    PositionFinds(b, id, 0);
    var p := Position(b, id, 0);
    if p < |b.subs| {
      CutOutList(b, RemoveId(b, id), p);
    }
  }

  lemma RemoveIdKeeps(b: Bus, id: string)
    requires Inv(b) && Unlocked(b)
    ensures Inv(RemoveId(b, id))
  {
    RemoveIdCuts(b, id);
    if RemoveId(b, id) != b {
      CutOutKeeps(b, RemoveId(b, id), Position(b, id, 0));
    }
  }

  lemma {:induction false} LiveSame(a: seq<Sub>, b: seq<Sub>)
    requires |a| == |b| && forall i :: 0 <= i < |a| ==> a[i].exited == b[i].exited
    ensures Live(a) == Live(b)
  {
    if a != [] {
      LiveSame(a[..|a| - 1], b[..|b| - 1]);
    }
  }

  lemma {:induction false} LiveExit(a: seq<Sub>, o: nat)
    requires o < |a| && !a[o].exited
    ensures Live(a[o := a[o].(exited := true)]) == Live(a) - 1
  {
    var b := a[o := a[o].(exited := true)];
    var n := |a| - 1;
    if o < n {
      LiveExit(a[..n], o);
      assert b[..n] == a[..n][o := a[o].(exited := true)];
    } else {
      assert b[..n] == a[..n];
    }
  }

  // ---------------------------------------------------------------- one step

  /** b with one object replaced by another of the same id, quit count and list membership. */
  lemma PutKeepsLists(b: Bus, c: Bus, o: nat, s: Sub)
    requires ListInv(b) && QuitInv(b) && o < |b.objects|
    requires s.id == b.objects[o].id && s.quits == b.objects[o].quits
    requires c.subs == b.subs && c.objects == b.objects[o := s]
    ensures ListInv(c) && QuitInv(c)
  {
  }

  /** Windows depend on the log, the list and what each object was offered. */
  lemma SameOffers(b: Bus, c: Bus)
    requires OfferedInv(b) && c.subs == b.subs && c.dispatched == b.dispatched && c.dispatcher == b.dispatcher
    requires |c.objects| == |b.objects|
    requires forall o :: 0 <= o < |b.objects| ==>
               c.objects[o].joined == b.objects[o].joined && c.objects[o].offered == b.objects[o].offered
    ensures OfferedInv(c)
  {
    forall i | 0 <= i < |c.subs| && c.subs[i] < |c.objects| ensures MemberWindow(c, i) {
      assert MemberWindow(b, i);
    }
    forall o | 0 <= o < |c.objects| ensures OfferedWindow(c, c.objects[o]) {
      assert OfferedWindow(b, b.objects[o]);
    }
  }

  lemma PutKeepsSubs(b: Bus, c: Bus, o: nat, s: Sub)
    requires SubsInv(b) && SubInv(s) && o < |b.objects| && c.objects == b.objects[o := s]
    ensures SubsInv(c)
  {
  }

  /** A worker's step moves events inside one object. */
  lemma WorkerKeeps(b: Bus, c: Bus, o: nat, s: Sub)
    requires Inv(b) && o < |b.objects| && SubInv(s)
    requires s == b.objects[o].(queue := s.queue, busy := s.busy, handled := s.handled)
    requires c == Put(b, o, s)
    ensures Inv(c)
  {
    PutKeepsLists(b, c, o, s);
    PutKeepsSubs(b, c, o, s);
    LiveSame(b.objects, c.objects);
    SameOffers(b, c);
  }

  lemma ExitKeepsSub(s: Sub)
    requires SubInv(s) && s.busy.None?
    ensures SubInv(s.(exited := true))
  {
    assert Backlog(s.(exited := true)) == Backlog(s);
  }

  lemma ExitKeeps(b: Bus, c: Bus, o: nat)
    requires Inv(b) && o < |b.objects| && !b.objects[o].exited && b.objects[o].busy.None?
    requires c == Put(b, o, b.objects[o].(exited := true)).(wg := b.wg - 1)
    ensures Inv(c)
  {
    var s := b.objects[o].(exited := true);
    ExitKeepsSub(b.objects[o]);
    PutKeepsLists(b, c, o, s);
    PutKeepsSubs(b, c, o, s);
    LiveExit(b.objects, o);
    SameOffers(b, c);
  }

  lemma WindowGrows(log: seq<Event>, from: nat, seen: seq<Event>, e: Event)
    requires from < |log| && log[|log| - 1] == e && seen == log[from..|log| - 1]
    ensures seen + [e] == log[from..|log|]
  {
  }

  /** Handing the event to the next subscriber completes that subscriber's window. */
  lemma OfferOffered(b: Bus, c: Bus)
    requires ListInv(b) && OfferedInv(b) && Enabled(b, Offer) && c == Apply(b, Offer)
    ensures OfferedInv(c)
  {
    var n := b.dispatcher.next;
    var s := b.objects[b.subs[n]];
    assert MemberWindow(b, n);
    WindowGrows(b.dispatched, s.joined, s.offered, b.dispatcher.e);
    forall i | 0 <= i < |c.subs| && c.subs[i] < |c.objects| ensures MemberWindow(c, i) {
      assert MemberWindow(b, i);
      if i != n {
        DistinctFrom(b, i, n);
      }
    }
    forall q | 0 <= q < |c.objects| ensures OfferedWindow(c, c.objects[q]) {
      assert OfferedWindow(b, b.objects[q]);
    }
  }

  lemma DistinctFrom(b: Bus, i: nat, j: nat)
    requires ListInv(b) && i < |b.subs| && j < |b.subs| && i != j
    ensures b.subs[i] != b.subs[j]
  {
    var lo, hi := if i < j then i else j, if i < j then j else i;
    assert b.objects[b.subs[lo]].id != b.objects[b.subs[hi]].id;
  }

  lemma OfferKeepsInv(b: Bus, c: Bus)
    requires Inv(b) && Enabled(b, Offer) && c == Apply(b, Offer)
    ensures Inv(c)
  {
    var o := b.subs[b.dispatcher.next];
    OfferOffered(b, c);
    assert SubInv(b.objects[o]);
    OfferKeeps(b.objects[o], b.dispatcher.e);
    PutKeepsLists(b, c, o, OfferTo(b.objects[o], b.dispatcher.e));
    PutKeepsSubs(b, c, o, OfferTo(b.objects[o], b.dispatcher.e));
    LiveSame(b.objects, c.objects);
  }

  lemma LockKeeps(b: Bus, c: Bus)
    requires Inv(b) && Enabled(b, LockForFan) && c == Apply(b, LockForFan)
    ensures Inv(c)
  {
    var d := |b.dispatched|;
    assert b.dispatched + [b.dispatcher.e] + b.ch == c.dispatched + Pending(c) + c.ch;
    assert c.dispatched[..d] == b.dispatched;
    forall q | 0 <= q < |c.objects| ensures OfferedWindow(c, c.objects[q]) {
      var s := b.objects[q];
      assert OfferedWindow(b, s);
      assert c.dispatched[s.joined..s.joined + |s.offered|] == b.dispatched[s.joined..s.joined + |s.offered|];
    }
    forall i | 0 <= i < |c.subs| && c.subs[i] < |c.objects|
      ensures MemberWindow(c, i)
    {
      var s := b.objects[b.subs[i]];
      assert MemberWindow(b, i);
      assert c.dispatched[s.joined..d] == b.dispatched[s.joined..d];
    }
  }

  lemma PublishKeeps(b: Bus, c: Bus, e: Event)
    requires Inv(b) && c == Apply(b, Publish(e))
    ensures Inv(c)
  {
    var all := b.dispatched + Pending(b) + b.ch;
    if |b.ch| < b.cap {
      assert c.dispatched + Pending(c) + c.ch == all + [e];
      SubseqKeep(all, b.published, e);
    } else {
      SubseqSkip(all, b.published, e);
    }
    SameObjects(b, c);
  }

  /** Steps that leave the objects, the list and the log alone. */
  lemma SameObjects(b: Bus, c: Bus)
    requires OfferedInv(b) && c.subs == b.subs && c.objects == b.objects && c.dispatched == b.dispatched
    requires c.dispatcher == b.dispatcher || (Unlocked(b) && Unlocked(c)) || (Unlocked(c) && b.dispatcher.next >= |b.subs|)
    ensures OfferedInv(c)
  {
    forall o | 0 <= o < |c.objects| ensures OfferedWindow(c, c.objects[o]) {
      assert OfferedWindow(b, b.objects[o]);
    }
    forall i | 0 <= i < |c.subs| && c.subs[i] < |c.objects| ensures MemberWindow(c, i) {
      assert MemberWindow(b, i);
    }
  }

  lemma ReceiveKeeps(b: Bus, c: Bus)
    requires Inv(b) && Enabled(b, Receive) && c == Apply(b, Receive)
    ensures Inv(c)
  {
    assert c.dispatched + Pending(c) + c.ch == b.dispatched + Pending(b) + b.ch;
    SameObjects(b, c);
  }

  lemma JoinKeeps(b: Bus, c: Bus, id: string)
    requires Inv(b) && Unlocked(b)
    requires forall i :: 0 <= i < |b.subs| ==> b.objects[b.subs[i]].id != id
    requires Joins(b, c, id)
    ensures Inv(c)
  {
    JoinOffered(b, c, id);
    JoinLists(b, c, id);
    assert c.objects[..|b.objects|] == b.objects;
    forall o | 0 <= o < |c.objects| ensures SubInv(c.objects[o]) {
      if o < |b.objects| {
        assert SubInv(b.objects[o]);
      } else {
        assert Backlog(c.objects[o]) == [];
      }
    }
  }

  ghost predicate Joins(b: Bus, c: Bus, id: string) {
    c == b.(subs := b.subs + [|b.objects|], objects := b.objects + [NewSub(id, |b.dispatched|)], wg := b.wg + 1)
  }

  lemma JoinOffered(b: Bus, c: Bus, id: string)
    requires ListInv(b) && OfferedInv(b) && Unlocked(b) && Joins(b, c, id)
    ensures OfferedInv(c)
  {
    forall i | 0 <= i < |c.subs| && c.subs[i] < |c.objects| ensures MemberWindow(c, i) {
      if i < |b.subs| {
        assert MemberWindow(b, i);
        assert c.objects[c.subs[i]] == b.objects[b.subs[i]];
      }
    }
    forall o | 0 <= o < |c.objects| ensures OfferedWindow(c, c.objects[o]) {
      if o < |b.objects| {
        assert OfferedWindow(b, b.objects[o]);
      }
    }
  }

  lemma JoinLists(b: Bus, c: Bus, id: string)
    requires ListInv(b) && QuitInv(b) && Joins(b, c, id)
    requires forall i :: 0 <= i < |b.subs| ==> b.objects[b.subs[i]].id != id
    ensures ListInv(c) && QuitInv(c)
  {
    assert forall i :: 0 <= i < |b.subs| ==> c.objects[c.subs[i]] == b.objects[b.subs[i]];
    forall o | 0 <= o < |c.objects| ensures c.objects[o].quits == if o in c.subs then 0 else 1 {
      if o < |b.objects| {
        assert o in b.subs <==> o in c.subs;
      } else {
        assert c.subs[|b.subs|] == o;
      }
    }
  }

  lemma SubscribeKeeps(b: Bus, c: Bus, id: string)
    requires Inv(b) && Unlocked(b) && !b.stopped && c == Apply(b, Subscribe(id))
    ensures Inv(c)
  {
    RemoveIdKeeps(b, id);
    RemoveIdCuts(b, id);
    JoinKeeps(RemoveId(b, id), c, id);
  }

  lemma QuietKeeps(b: Bus, step: Step)
    requires Inv(b) && Enabled(b, step)
    requires step.EndFan? || step.DispatcherExit? || step.SetStopped? || step.CloseDone?
    ensures Inv(Apply(b, step))
  {
    SameObjects(b, Apply(b, step));
  }

  lemma StepKeepsInv(b: Bus, step: Step)
    requires Inv(b) && Enabled(b, step)
    ensures Inv(Apply(b, step))
  {
    var c := Apply(b, step);
    match step
    case Publish(e) => PublishKeeps(b, c, e);
    case Receive => ReceiveKeeps(b, c);
    case LockForFan => LockKeeps(b, c);
    case Offer => OfferKeepsInv(b, c);
    case EndFan => QuietKeeps(b, step);
    case DispatcherExit => QuietKeeps(b, step);
    case Take(o) =>
      TakeKeeps(b.objects[o]);
      WorkerKeeps(b, c, o, TakeNext(b.objects[o]));
    case Finish(o) =>
      FinishKeeps(b.objects[o]);
      WorkerKeeps(b, c, o, FinishBusy(b.objects[o]));
    case WorkerExit(o) => ExitKeeps(b, c, o);
    case Subscribe(id) => if !b.stopped { SubscribeKeeps(b, c, id); }
    case Unsubscribe(id) => RemoveIdKeeps(b, id);
    case SetStopped => QuietKeeps(b, step);
    case CloseDone => QuietKeeps(b, step);
  }

  lemma {:induction false} RunKeepsInv(b: Bus, steps: seq<Step>)
    requires Inv(b) && Runs(b, steps)
    ensures Inv(Run(b, steps))
    decreases |steps|
  {
    if steps != [] {
      StepKeepsInv(b, steps[0]);
      RunKeepsInv(Apply(b, steps[0]), steps[1..]);
    }
  }

  lemma NewInv(cap: nat)
    ensures Inv(New(cap))
  {
  }

  // ---------------------------------------------------------------- what holds over every run

  /** For every run: queues stay within bounds and ids stay unique; what a subscriber has handled, is handling and has
      queued is an in-order subsequence of what was dispatched since it joined; nothing offered is lost uncounted;
      its quit channel closes once at most; and the wait group counts exactly the goroutines still running. */
  lemma EveryRun(cap: nat, steps: seq<Step>)
    requires Runs(New(cap), steps)
    ensures var b := Run(New(cap), steps);
            && |b.ch| <= b.cap
            && ListInv(b)
            && b.wg == Live(b.objects) + (if b.dispatcher.Gone? then 0 else 1)
            && (forall o :: 0 <= o < |b.objects| ==>
                  var s := b.objects[o];
                  && |s.queue| <= QUEUE && s.quits <= 1
                  && Subseq(s.handled + BusySeq(s) + s.queue, s.offered)
                  && |s.handled| + |BusySeq(s)| + |s.queue| + s.dropped == |s.offered|
                  && s.joined + |s.offered| <= |b.dispatched|
                  && s.offered == b.dispatched[s.joined..s.joined + |s.offered|])
  {
    NewInv(cap);
    RunKeepsInv(New(cap), steps);
    var b := Run(New(cap), steps);
    assert SubsInv(b) && OfferedInv(b);
    forall o | 0 <= o < |b.objects| ensures SubInv(b.objects[o]) && OfferedWindow(b, b.objects[o]) {
    }
  }

  /** Between two fan-outs a current subscriber has been offered everything dispatched since it joined, and
      handled + in progress + queued + dropped add up to exactly that. */
  lemma CurrentSubscriberMissesNothing(cap: nat, steps: seq<Step>, i: nat)
    requires Runs(New(cap), steps)
    requires var b := Run(New(cap), steps); Unlocked(b) && i < |b.subs|
    ensures var b := Run(New(cap), steps);
            && b.subs[i] < |b.objects|
            && var s := b.objects[b.subs[i]];
               s.joined <= |b.dispatched| && s.offered == b.dispatched[s.joined..]
               && |s.handled| + |BusySeq(s)| + |s.queue| + s.dropped == |b.dispatched| - s.joined
  {
    NewInv(cap);
    RunKeepsInv(New(cap), steps);
    var b := Run(New(cap), steps);
    assert MemberWindow(b, i);
    assert SubInv(b.objects[b.subs[i]]);
  }

  /** Events leave the bus in publication order: dispatched, then in hand, then buffered. */
  lemma PublicationOrder(cap: nat, steps: seq<Step>)
    requires Runs(New(cap), steps)
    ensures var b := Run(New(cap), steps); Subseq(b.dispatched + Pending(b) + b.ch, b.published)
  {
    NewInv(cap);
    RunKeepsInv(New(cap), steps);
  }

  /** Once Stop has set its flag no worker is ever added, so the wait group can only fall. */
  lemma {:induction false} NoWorkerAfterStop(b: Bus, steps: seq<Step>)
    requires Runs(b, steps) && b.stopped
    ensures var c := Run(b, steps); c.stopped && |c.objects| == |b.objects| && c.wg <= b.wg
    decreases |steps|
  {
    if steps != [] {
      NoWorkerAfterStop(Apply(b, steps[0]), steps[1..]);
    }
  }

  // ---------------------------------------------------------------- isolation

  /** The part of a subscriber that decides what it receives. */
  datatype Mailbox = Mailbox(queue: seq<Event>, busy: Option<Event>, handled: seq<Event>, dropped: nat)

  function MailboxOf(s: Sub): Mailbox { Mailbox(s.queue, s.busy, s.handled, s.dropped) }

  /** What can happen to one mailbox. */
  datatype Action = Offered(e: Event) | Taken | Finished

  function Act(m: Mailbox, a: Action): Mailbox {
    match a
    case Offered(e) => if |m.queue| < QUEUE then m.(queue := m.queue + [e]) else m.(dropped := m.dropped + 1)
    case Taken => if m.queue == [] then m else m.(queue := m.queue[1..], busy := Some(m.queue[0]))
    case Finished => if m.busy.None? then m else m.(handled := m.handled + [m.busy.value], busy := None)
  }

  function ActAll(m: Mailbox, actions: seq<Action>): Mailbox
    decreases |actions|
  {
    if actions == [] then m else ActAll(Act(m, actions[0]), actions[1..])
  }

  /** The actions of one step on subscriber o. */
  function ActionsOn(b: Bus, step: Step, o: nat): seq<Action>
    requires Enabled(b, step)
  {
    match step
    case Offer => if b.subs[b.dispatcher.next] == o then [Offered(b.dispatcher.e)] else []
    case Take(q) => if q == o then [Taken] else []
    case Finish(q) => if q == o then [Finished] else []
    case _ => []
  }

  ghost function Projection(b: Bus, steps: seq<Step>, o: nat): seq<Action>
    requires Runs(b, steps)
    decreases |steps|
  {
    if steps == [] then []
    else ActionsOn(b, steps[0], o) + Projection(Apply(b, steps[0]), steps[1..], o)
  }

  lemma StepIsolated(b: Bus, step: Step, o: nat)
    requires Enabled(b, step) && o < |b.objects|
    ensures o < |Apply(b, step).objects|
    ensures MailboxOf(Apply(b, step).objects[o]) == ActAll(MailboxOf(b.objects[o]), ActionsOn(b, step, o))
  {
    var acts := ActionsOn(b, step, o);
    if acts != [] {
      assert acts[1..] == [];
      assert ActAll(Act(MailboxOf(b.objects[o]), acts[0]), []) == Act(MailboxOf(b.objects[o]), acts[0]);
    }
  }

  lemma {:induction false} ActAllAppend(m: Mailbox, a: seq<Action>, c: seq<Action>)
    ensures ActAll(m, a + c) == ActAll(ActAll(m, a), c)
    decreases |a|
  {
    if a == [] {
      assert a + c == c;
    } else {
      assert (a + c)[1..] == a[1..] + c;
      ActAllAppend(Act(m, a[0]), a[1..], c);
    }
  }

  lemma {:induction false} MailboxIsProjection(b: Bus, steps: seq<Step>, o: nat)
    requires Runs(b, steps) && o < |b.objects|
    ensures o < |Run(b, steps).objects|
    ensures MailboxOf(Run(b, steps).objects[o]) == ActAll(MailboxOf(b.objects[o]), Projection(b, steps, o))
    decreases |steps|
  {
    if steps != [] {
      StepIsolated(b, steps[0], o);
      MailboxIsProjection(Apply(b, steps[0]), steps[1..], o);
      ActAllAppend(MailboxOf(b.objects[o]), ActionsOn(b, steps[0], o), Projection(Apply(b, steps[0]), steps[1..], o));
    }
  }

  /** Two runs that do the same things to one subscriber leave it with the same queue, deliveries and drops,
      whatever the other subscribers, publishers and Stop did: a slow subscriber costs only itself. */
  lemma DropsDependOnOwnQueue(b: Bus, one: seq<Step>, two: seq<Step>, o: nat)
    requires Runs(b, one) && Runs(b, two) && o < |b.objects|
    requires Projection(b, one, o) == Projection(b, two, o)
    ensures o < |Run(b, one).objects| && o < |Run(b, two).objects|
    ensures MailboxOf(Run(b, one).objects[o]) == MailboxOf(Run(b, two).objects[o])
  {
    MailboxIsProjection(b, one, o);
    MailboxIsProjection(b, two, o);
  }
}
