/** Where events of the bus (internal/eventbus/bus.go) can be lost, and nowhere else: in a full channel, and in the full
    queue of one subscriber. */
module EventBusLosses {
  import opened Text
  import opened EventBus

  // ---------------------------------------------------------------- the channel

  /** Everything that got into the channel: handed out, in the dispatcher's hand, or still buffered. */
  function Entered(b: Bus): seq<Event> { b.dispatched + Pending(b) + b.ch }

  /** The events whose Publish found room in the channel, in order. */
  ghost function Accepted(b: Bus, steps: seq<Step>): seq<Event>
    requires Runs(b, steps)
    decreases |steps|
  {
    if steps == [] then []
    else
      (if steps[0].Publish? && |b.ch| < b.cap then [steps[0].e] else []) + Accepted(Apply(b, steps[0]), steps[1..])
  }

  /** How many Publish calls met a full channel. */
  ghost function Lost(b: Bus, steps: seq<Step>): nat
    requires Runs(b, steps)
    decreases |steps|
  {
    if steps == [] then 0
    else (if steps[0].Publish? && |b.ch| >= b.cap then 1 else 0) + Lost(Apply(b, steps[0]), steps[1..])
  }

  function Publishes(steps: seq<Step>): seq<Event> {
    if steps == [] then [] else (if steps[0].Publish? then [steps[0].e] else []) + Publishes(steps[1..])
  }

  lemma StepEnters(b: Bus, step: Step)
    requires Enabled(b, step)
    ensures Entered(Apply(b, step)) == Entered(b) + (if step.Publish? && |b.ch| < b.cap then [step.e] else [])
    ensures Apply(b, step).published == b.published + (if step.Publish? then [step.e] else [])
  {
    if step.Receive? {
      assert b.ch == [b.ch[0]] + b.ch[1..];
      assert b.dispatched + [b.ch[0]] + b.ch[1..] == b.dispatched + ([b.ch[0]] + b.ch[1..]);
    }
  }

  lemma Assoc(a: seq<Event>, b: seq<Event>, c: seq<Event>)
    ensures (a + b) + c == a + (b + c)
  {
  }

  /** Over every run, what got into the channel is exactly the events whose Publish found room, in order; and every
      other published event met a full channel. */
  lemma {:induction false} LostOnlyToFullChannel(b: Bus, steps: seq<Step>)
    requires Runs(b, steps)
    ensures Entered(Run(b, steps)) == Entered(b) + Accepted(b, steps)
    ensures Run(b, steps).published == b.published + Publishes(steps)
    ensures |Publishes(steps)| == |Accepted(b, steps)| + Lost(b, steps)
    ensures Lost(b, steps) == 0 ==> Accepted(b, steps) == Publishes(steps)
    decreases |steps|
  {
    if steps != [] {
      var t := Apply(b, steps[0]);
      StepEnters(b, steps[0]);
      LostOnlyToFullChannel(t, steps[1..]);
      Assoc(Entered(b), if steps[0].Publish? && |b.ch| < b.cap then [steps[0].e] else [], Accepted(t, steps[1..]));
      Assoc(b.published, if steps[0].Publish? then [steps[0].e] else [], Publishes(steps[1..]));
    }
  }

  /** From the start of the bus: published = dispatched + in hand + buffered + lost, and while no Publish met a full
      channel the three hold exactly what was published, in order. */
  lemma PublishedAccount(cap: nat, steps: seq<Step>)
    requires Runs(New(cap), steps)
    ensures var b := Run(New(cap), steps);
            && b.published == Publishes(steps)
            && |b.published| == |b.dispatched| + |Pending(b)| + |b.ch| + Lost(New(cap), steps)
            && (Lost(New(cap), steps) == 0 ==> b.dispatched + Pending(b) + b.ch == b.published)
  {
    LostOnlyToFullChannel(New(cap), steps);
  }

  // ---------------------------------------------------------------- one subscriber's queue

  /** The step offers an event to subscriber o. */
  predicate OffersTo(b: Bus, step: Step, o: nat)
    requires Enabled(b, step)
  {
    step.Offer? && b.subs[b.dispatcher.next] == o
  }

  /** The events that were offered to o while its queue had room. */
  ghost function Queued(b: Bus, steps: seq<Step>, o: nat): seq<Event>
    requires Runs(b, steps) && o < |b.objects|
    decreases |steps|
  {
    if steps == [] then []
    else
      ObjectStays(b, steps[0], o);
      (if OffersTo(b, steps[0], o) && |b.objects[o].queue| < QUEUE then [b.dispatcher.e] else [])
      + Queued(Apply(b, steps[0]), steps[1..], o)
  }

  /** How many events were offered to o while its queue was full. */
  ghost function Refused(b: Bus, steps: seq<Step>, o: nat): nat
    requires Runs(b, steps) && o < |b.objects|
    decreases |steps|
  {
    if steps == [] then 0
    else
      ObjectStays(b, steps[0], o);
      (if OffersTo(b, steps[0], o) && |b.objects[o].queue| >= QUEUE then 1 else 0)
      + Refused(Apply(b, steps[0]), steps[1..], o)
  }

  lemma ObjectStays(b: Bus, step: Step, o: nat)
    requires Enabled(b, step) && o < |b.objects|
    ensures o < |Apply(b, step).objects|
  {
    StepIsolated(b, step, o);
  }

  lemma StepQueues(b: Bus, step: Step, o: nat)
    requires Enabled(b, step) && o < |b.objects|
    ensures o < |Apply(b, step).objects|
    ensures var s, t, offered := b.objects[o], Apply(b, step).objects[o], OffersTo(b, step, o);
            && Backlog(t) == Backlog(s) + (if offered && |s.queue| < QUEUE then [b.dispatcher.e] else [])
            && t.dropped == s.dropped + (if offered && |s.queue| >= QUEUE then 1 else 0)
  {
    StepIsolated(b, step, o);
    var s, t := b.objects[o], Apply(b, step).objects[o];
    MailboxDecides(s, t, b, step, o);
  }

  lemma MailboxDecides(s: Sub, t: Sub, b: Bus, step: Step, o: nat)
    requires Enabled(b, step) && o < |b.objects| && s == b.objects[o]
    requires MailboxOf(t) == ActAll(MailboxOf(s), ActionsOn(b, step, o))
    ensures var offered := OffersTo(b, step, o);
            && Backlog(t) == Backlog(s) + (if offered && |s.queue| < QUEUE then [b.dispatcher.e] else [])
            && t.dropped == s.dropped + (if offered && |s.queue| >= QUEUE then 1 else 0)
  {
    var acts := ActionsOn(b, step, o);
    if acts != [] {
      assert acts[1..] == [];
      assert MailboxOf(t) == Act(MailboxOf(s), acts[0]);
      if step.Take? {
        assert s.queue == [s.queue[0]] + s.queue[1..];
      }
    }
  }

  /** Over every run, what a subscriber has handled, is handling and has queued grows by exactly the events offered
      while its queue had room, in order; what it drops is exactly the others. */
  lemma {:induction false} DroppedOnlyByFullQueue(b: Bus, steps: seq<Step>, o: nat)
    requires Runs(b, steps) && o < |b.objects|
    ensures o < |Run(b, steps).objects|
    ensures Backlog(Run(b, steps).objects[o]) == Backlog(b.objects[o]) + Queued(b, steps, o)
    ensures Run(b, steps).objects[o].dropped == b.objects[o].dropped + Refused(b, steps, o)
    decreases |steps|
  {
    if steps != [] {
      var t := Apply(b, steps[0]);
      StepQueues(b, steps[0], o);
      DroppedOnlyByFullQueue(t, steps[1..], o);
      Assoc(Backlog(b.objects[o]),
            if OffersTo(b, steps[0], o) && |b.objects[o].queue| < QUEUE then [b.dispatcher.e] else [],
            Queued(t, steps[1..], o));
    }
  }

  // ---------------------------------------------------------------- joining and leaving

  /** Subscribing before Stop always takes effect: one current subscriber has the id, it is new, has an empty mailbox
      and starts with the next event; everybody with another id stays. */
  lemma SubscribeTakesEffect(cap: nat, steps: seq<Step>, id: string)
    requires Runs(New(cap), steps) && Enabled(Run(New(cap), steps), Subscribe(id)) && !Run(New(cap), steps).stopped
    ensures var b := Run(New(cap), steps); var c := Apply(b, Subscribe(id));
            && |c.objects| == |b.objects| + 1 && c.wg == b.wg + 1
            && c.subs != [] && c.subs[|c.subs| - 1] == |b.objects|
            && c.objects[|b.objects|] == NewSub(id, |b.dispatched|)
            && forall o: nat :: o in c.subs && o != |b.objects|
                           <==> o in b.subs && o < |b.objects| && b.objects[o].id != id
  {
    NewInv(cap);
    RunKeepsInv(New(cap), steps);
    var b := Run(New(cap), steps);
    RemovedMembers(b, id);
  }

  /** Unsubscribing takes the subscriber of that id out, and nobody else. */
  lemma UnsubscribeTakesEffect(cap: nat, steps: seq<Step>, id: string)
    requires Runs(New(cap), steps) && Enabled(Run(New(cap), steps), Unsubscribe(id))
    ensures var b := Run(New(cap), steps); var c := Apply(b, Unsubscribe(id));
            forall o: nat :: o in c.subs <==> o in b.subs && o < |b.objects| && b.objects[o].id != id
  {
    NewInv(cap);
    RunKeepsInv(New(cap), steps);
    RemovedMembers(Run(New(cap), steps), id);
  }

  lemma RemovedMembers(b: Bus, id: string)
    requires ListInv(b)
    ensures var c := RemoveId(b, id);
            && |c.objects| == |b.objects| && c.wg == b.wg && c.dispatched == b.dispatched
            && forall o: nat :: o in c.subs <==> o in b.subs && o < |b.objects| && b.objects[o].id != id
  {
    RemoveIdCuts(b, id);
    PositionFinds(b, id, 0);
    var c, p := RemoveId(b, id), Position(b, id, 0);
    forall o: nat ensures o in c.subs <==> o in b.subs && o < |b.objects| && b.objects[o].id != id {
      if p < |b.subs| {
        if o < |b.objects| { CutOutMembers(b, c, p, o); }
        if o in b.subs {
          var i :| 0 <= i < |b.subs| && b.subs[i] == o;
          assert i != p ==> b.objects[o].id != b.objects[b.subs[p]].id;
        }
      }
    }
  }
}
