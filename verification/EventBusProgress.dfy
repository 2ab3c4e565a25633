/** Progress of the event bus (internal/eventbus/bus.go): a slow subscriber never holds up the dispatcher, and Stop can
    always come to its end. */
module EventBusProgress {
  import opened Text
  import opened EventBus

  /** Steps the goroutines take by themselves: nobody publishes, joins, leaves or stops, and no worker takes a further
      event. */
  predicate Winding(step: Step) {
    step.LockForFan? || step.Offer? || step.EndFan? || step.DispatcherExit? || step.Finish? || step.WorkerExit?
  }

  predicate AllWinding(steps: seq<Step>) { forall i :: 0 <= i < |steps| ==> Winding(steps[i]) }

  /** The goroutines can get from one state to the other by themselves. */
  ghost predicate Reaches(b: Bus, c: Bus) {
    exists steps :: Runs(b, steps) && AllWinding(steps) && Run(b, steps) == c
  }

  lemma {:induction false} RunAppend(b: Bus, x: seq<Step>, y: seq<Step>)
    requires Runs(b, x) && Runs(Run(b, x), y)
    ensures Runs(b, x + y) && Run(b, x + y) == Run(Run(b, x), y)
    decreases |x|
  {
    if x == [] {
      assert x + y == y;
    } else {
      assert (x + y)[0] == x[0] && (x + y)[1..] == x[1..] + y;
      RunAppend(Apply(b, x[0]), x[1..], y);
    }
  }

  lemma ReachesItself(b: Bus)
    ensures Reaches(b, b)
  {
    assert Runs(b, []) && Run(b, []) == b && AllWinding([]);
  }

  lemma ReachesFurther(b: Bus, c: Bus, d: Bus)
    requires Reaches(b, c) && Reaches(c, d)
    ensures Reaches(b, d)
  {
    var x :| Runs(b, x) && AllWinding(x) && Run(b, x) == c;
    var y :| Runs(c, y) && AllWinding(y) && Run(c, y) == d;
    RunAppend(b, x, y);
    assert AllWinding(x + y);
  }

  lemma ReachesNext(b: Bus, step: Step)
    requires Enabled(b, step) && Winding(step)
    ensures Reaches(b, Apply(b, step))
  {
    var steps := [step];
    assert steps[1..] == [];
    assert Runs(Apply(b, step), steps[1..]) && Run(Apply(b, step), steps[1..]) == Apply(b, step);
    assert Runs(b, steps) && AllWinding(steps) && Run(b, steps) == Apply(b, step);
  }

  lemma ReachesKeepsInv(b: Bus, c: Bus)
    requires Reaches(b, c) && Inv(b)
    ensures Inv(c)
  {
    var steps :| Runs(b, steps) && AllWinding(steps) && Run(b, steps) == c;
    RunKeepsInv(b, steps);
  }

  // ---------------------------------------------------------------- the dispatcher

  /** Whatever the queues hold, a dispatcher that is handing out an event can go on. */
  lemma DispatcherNeverStalls(cap: nat, steps: seq<Step>)
    requires Runs(New(cap), steps) && Run(New(cap), steps).dispatcher.Fanning?
    ensures var b := Run(New(cap), steps); Enabled(b, Offer) || Enabled(b, EndFan)
  {
    NewInv(cap);
    RunKeepsInv(New(cap), steps);
  }

  /** The hand-out ends after one offer to each subscriber left, and changes nothing else. */
  lemma {:induction false} FanEnds(b: Bus) returns (c: Bus)
    requires Inv(b) && b.dispatcher.Fanning?
    ensures Reaches(b, c) && c.dispatcher.Waiting? && c.done == b.done && |c.objects| == |b.objects|
    decreases |b.subs| - b.dispatcher.next
  {
    if b.dispatcher.next < |b.subs| {
      var t := Apply(b, Offer);
      StepKeepsInv(b, Offer);
      ReachesNext(b, Offer);
      c := FanEnds(t);
      ReachesFurther(b, t, c);
    } else {
      c := Apply(b, EndFan);
      ReachesNext(b, EndFan);
    }
  }

  /** Once done is closed, the dispatcher finishes the event in hand and leaves. */
  lemma DispatcherLeaves(b: Bus) returns (c: Bus)
    requires Inv(b) && b.done
    ensures Reaches(b, c) && c.dispatcher.Gone? && c.done && |c.objects| == |b.objects|
  {
    if b.dispatcher.Gone? {
      ReachesItself(b);
      return b;
    }
    var t := b;
    ReachesItself(b);
    if b.dispatcher.Received? {
      t := Apply(b, LockForFan);
      StepKeepsInv(b, LockForFan);
      ReachesNext(b, LockForFan);
    }
    if t.dispatcher.Fanning? {
      var u := FanEnds(t);
      ReachesFurther(b, t, u);
      t := u;
    }
    c := Apply(t, DispatcherExit);
    ReachesNext(t, DispatcherExit);
    ReachesFurther(b, t, c);
  }

  // ---------------------------------------------------------------- the workers

  predicate Exited(b: Bus, n: nat)
    requires n <= |b.objects|
  {
    forall o :: 0 <= o < n ==> b.objects[o].exited
  }

  /** A worker finishes the handler it is in, if any, and leaves. */
  lemma WorkerLeaves(b: Bus, o: nat) returns (c: Bus)
    requires b.done && o < |b.objects|
    ensures Reaches(b, c) && c.done && c.dispatcher == b.dispatcher && |c.objects| == |b.objects| && c.objects[o].exited
    ensures forall k :: 0 <= k < |b.objects| && k != o ==> c.objects[k] == b.objects[k]
  {
    c := b;
    ReachesItself(b);
    if b.objects[o].exited { return; }
    if b.objects[o].busy.Some? {
      c := Apply(b, Finish(o));
      ReachesNext(b, Finish(o));
    }
    var t := c;
    c := Apply(t, WorkerExit(o));
    ReachesNext(t, WorkerExit(o));
    ReachesFurther(b, t, c);
  }

  lemma {:induction false} WorkersLeave(b: Bus, n: nat) returns (c: Bus)
    requires b.done && n <= |b.objects|
    ensures Reaches(b, c) && c.done && c.dispatcher == b.dispatcher && |c.objects| == |b.objects| && Exited(c, n)
  {
    if n == 0 {
      c := b;
      ReachesItself(b);
    } else {
      var t := WorkersLeave(b, n - 1);
      c := WorkerLeaves(t, n - 1);
      ReachesFurther(b, t, c);
    }
  }

  lemma {:induction false} NobodyLive(objects: seq<Sub>)
    requires forall o :: 0 <= o < |objects| ==> objects[o].exited
    ensures Live(objects) == 0
  {
    if objects != [] {
      NobodyLive(objects[..|objects| - 1]);
    }
  }

  /** Once Stop has closed done, from every reachable state the goroutines can end by themselves, so that the wait group
      reaches zero and Stop returns; handlers in progress are finished, nothing else is waited for. */
  lemma StopReturns(cap: nat, steps: seq<Step>)
    requires Runs(New(cap), steps) && Run(New(cap), steps).done
    ensures exists c :: Reaches(Run(New(cap), steps), c) && c.wg == 0
  {
    var b := Run(New(cap), steps);
    NewInv(cap);
    RunKeepsInv(New(cap), steps);
    var t := DispatcherLeaves(b);
    ReachesKeepsInv(b, t);
    var c := WorkersLeave(t, |t.objects|);
    ReachesFurther(b, t, c);
    ReachesKeepsInv(b, c);
    NobodyLive(c.objects);
  }
}
