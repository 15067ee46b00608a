/** Every step keeps queued and coalesced events from being lost while their
    connection lasts. */
module WebExtLoss {
  import opened BrowserTypes
  import opened WebExt
  import opened WebExtSteps

  lemma {:induction false} OfGenerationNone(events: seq<Queued>, gen: nat)
    requires forall qe :: qe in events ==> qe.gen < gen
    ensures OfGeneration(events, gen) == []
  {
    if events != [] {
      assert events[0] in events;
      OfGenerationNone(events[1..], gen);
    }
  }

  /** Steps that touch neither the queue nor the held event, and record at most
      a happening that is no enqueueing, coalescing or delivery. */
  lemma QuietKeepsNoLoss(s: State, t: State, x: Happening)
    requires NoLoss(s) && t.events == s.events && Held(t) == Held(s) && t.generation == s.generation
    requires t.conn == s.conn || t.conn == None
    requires forall g :: g in t.emitters && t.emitters[g] != Idle ==> t.emitters[g].qe.gen <= t.generation
    requires !x.Enqueued? && !x.Coalesced? && !x.Delivered?
    requires t.history == s.history || t.history == s.history + [x]
    ensures NoLoss(t)
  {
    if t.history != s.history {
      Extend(s.history, x);
      forall g: nat
        ensures EnqueuedBy(t.history, g) == EnqueuedBy(s.history, g)
        ensures DeliveredFor(t.history, g) == DeliveredFor(s.history, g)
      {
        ExtendStreams(s.history, x, g);
      }
    }
  }

  lemma SwapKeepsNoLoss(s: State)
    requires NoLoss(s)
    ensures NoLoss(Next(s, Swap))
  {
    var gen := s.generation + 1;
    Extend(s.history, Swapped(gen));
    forall g: nat
      ensures EnqueuedBy(s.history + [Swapped(gen)], g) == EnqueuedBy(s.history, g)
      ensures DeliveredFor(s.history + [Swapped(gen)], g) == DeliveredFor(s.history, g)
    {
      ExtendStreams(s.history, Swapped(gen), g);
    }
    OfGenerationNone(Held(s) + s.events, gen);
  }

  lemma CoalesceKeepsNoLoss(s: State, gen: nat, window: WindowId)
    requires Marks(s) && NoLoss(s) && Reading(s, gen) && Queued(gen, TabsChanged(window)) in s.queuedTabs
    ensures NoLoss(Next(s, Mark(gen, window)))
  {
    var qe := Queued(gen, TabsChanged(window));
    Extend(s.history, Coalesced(qe));
    forall g: nat
      ensures EnqueuedBy(s.history + [Coalesced(qe)], g) == EnqueuedBy(s.history, g)
      ensures DeliveredFor(s.history + [Coalesced(qe)], g) == DeliveredFor(s.history, g)
    {
      ExtendStreams(s.history, Coalesced(qe), g);
    }
    assert qe in s.events || s.sub == Received(qe);
  }

  lemma EnqueueKeepsNoLoss(s: State, t: State, qe: Queued)
    requires NoLoss(s) && qe.gen <= s.generation
    requires t.events == s.events + [qe] && t.sub == s.sub && t.conn == s.conn && t.generation == s.generation
    requires t.history == s.history + [Enqueued(qe)]
    requires forall g :: g in t.emitters && t.emitters[g] != Idle ==> t.emitters[g].qe.gen <= t.generation
    ensures NoLoss(t)
  {
    Extend(s.history, Enqueued(qe));
    forall g: nat
      ensures EnqueuedBy(t.history, g) == EnqueuedBy(s.history, g) + (if qe.gen == g then [qe] else [])
      ensures DeliveredFor(t.history, g) == DeliveredFor(s.history, g)
    {
      ExtendStreams(s.history, Enqueued(qe), g);
    }
    assert Held(t) + t.events == Held(s) + s.events + [qe];
    if s.conn.Some? {
      OfGenerationAppend(Held(s) + s.events, qe, s.conn.value);
    }
  }

  lemma ReceiveKeepsNoLoss(s: State)
    requires NoLoss(s)
    ensures NoLoss(Next(s, Receive))
  {
    if s.sub == Waiting && s.events != [] {
      var t := Next(s, Receive);
      assert Held(t) + t.events == Held(s) + s.events;
      forall qe | qe in s.events ensures qe in t.events || qe in Held(t) {
        assert qe == s.events[0] || qe in s.events[1..];
      }
    }
  }

  lemma SettleKeepsNoLoss(s: State)
    requires Connections(s) && NoLoss(s)
    ensures NoLoss(Next(s, Settle))
  {
    if s.sub.Drained? {
      var held := s.(sub := Waiting);
      SyncKeepsConnections(held);
      SyncStreams(held);
      var t := SyncState(held);
      if t.deliveredConnected && s.sub.qe.gen == t.deliveredGen {
        DeliverKeepsNoLoss(s, t, s.sub.qe);
      } else {
        DiscardKeepsNoLoss(s, t, s.sub.qe);
      }
    }
  }

  /** The held event is discarded only when its connection is not current. */
  lemma DiscardKeepsNoLoss(s: State, t: State, qe: Queued)
    requires NoLoss(s) && s.sub == Drained(qe) && SameButSettled(s, t) && t.conn != Some(qe.gen)
    ensures NoLoss(t)
  {
    assert Held(t) + t.events == s.events;
    assert Held(s) + s.events == [qe] + s.events;
    DiscardKeepsSequence(s, t, qe);
    DiscardKeepsPast(s, t, qe);
  }

  lemma DiscardKeepsSequence(s: State, t: State, qe: Queued)
    requires InSequence(s) && s.sub == Drained(qe) && SameButSettled(s, t) && t.conn != Some(qe.gen)
    ensures InSequence(t)
  {
    assert Held(t) + t.events == s.events;
    assert Held(s) + s.events == [qe] + s.events;
    assert ([qe] + s.events)[1..] == s.events;
  }

  lemma DiscardKeepsPast(s: State, t: State, qe: Queued)
    requires NoFuture(s) && s.sub == Drained(qe) && SameButSettled(s, t)
    ensures NoFuture(t)
  {
    assert Held(t) + t.events == s.events;
    assert forall x :: x in s.events ==> x in Held(s) + s.events;
  }

  /** `t` is `s` after the subscriber let go of its event and announced the
      connection state. */
  ghost predicate SameButSettled(s: State, t: State) {
    && t.sub == Waiting && t.events == s.events && t.conn == s.conn && t.generation == s.generation
    && t.emitters == s.emitters
    && Owed(t.history) == Owed(s.history)
    && (forall g :: EnqueuedBy(t.history, g) == EnqueuedBy(s.history, g))
    && (forall g :: DeliveredFor(t.history, g) == DeliveredFor(s.history, g))
  }

  /** Announcing a connection state delivers and enqueues nothing. */
  lemma SyncStreams(s: State)
    ensures Owed(SyncState(s).history) == Owed(s.history)
    ensures forall g :: EnqueuedBy(SyncState(s).history, g) == EnqueuedBy(s.history, g)
    ensures forall g :: DeliveredFor(SyncState(s).history, g) == DeliveredFor(s.history, g)
  {
    var x := if s.conn.Some? then Connected(s.conn.value) else Disconnected;
    Extend(s.history, x);
    forall g: nat
      ensures EnqueuedBy(s.history + [x], g) == EnqueuedBy(s.history, g)
      ensures DeliveredFor(s.history + [x], g) == DeliveredFor(s.history, g)
    {
      ExtendStreams(s.history, x, g);
    }
  }

  lemma DeliverKeepsNoLoss(s: State, t: State, qe: Queued)
    requires NoLoss(s) && s.sub == Drained(qe) && SameButSettled(s, t) && t.conn == Some(qe.gen)
    ensures NoLoss(t.(history := t.history + [Delivered(qe)]))
  {
    var u := t.(history := t.history + [Delivered(qe)]);
    Extend(t.history, Delivered(qe));
    forall g: nat
      ensures EnqueuedBy(u.history, g) == EnqueuedBy(s.history, g)
      ensures DeliveredFor(u.history, g) == DeliveredFor(s.history, g) + (if qe.gen == g then [qe] else [])
    {
      ExtendStreams(t.history, Delivered(qe), g);
    }
    DeliverInSequence(s, u, qe);
    assert Held(u) + u.events == s.events;
    assert forall x :: x in u.events ==> x in Held(s) + s.events;
  }

  lemma DeliverInSequence(s: State, u: State, qe: Queued)
    requires InSequence(s) && s.sub == Drained(qe) && u.sub == Waiting && u.events == s.events
    requires s.conn == Some(qe.gen) && u.conn == s.conn
    requires EnqueuedBy(u.history, qe.gen) == EnqueuedBy(s.history, qe.gen)
    requires DeliveredFor(u.history, qe.gen) == DeliveredFor(s.history, qe.gen) + [qe]
    ensures InSequence(u)
  {
    assert Held(s) + s.events == [qe] + s.events;
    assert ([qe] + s.events)[1..] == s.events;
    assert Held(u) + u.events == s.events;
    assert OfGeneration([qe] + s.events, qe.gen) == [qe] + OfGeneration(s.events, qe.gen);
  }

  lemma MarkKeepsNoLoss(s: State, gen: nat, window: WindowId)
    requires Marks(s) && NoLoss(s)
    ensures NoLoss(Next(s, Mark(gen, window)))
  {
    if Reading(s, gen) && Queued(gen, TabsChanged(window)) in s.queuedTabs {
      CoalesceKeepsNoLoss(s, gen, window);
    } else {
      QuietKeepsNoLoss(s, Next(s, Mark(gen, window)), Dropped(gen));
    }
  }

  lemma OtherKeepsNoLoss(s: State, gen: nat, kind: string, window: WindowId)
    requires NoLoss(s)
    ensures NoLoss(Next(s, EmitOther(gen, kind, window)))
  {
    var qe, t := Queued(gen, OtherEvent(kind, window)), Next(s, EmitOther(gen, kind, window));
    if Reading(s, gen) && |s.events| < CAPACITY {
      EnqueueKeepsNoLoss(s, t, qe);
    } else {
      QuietKeepsNoLoss(s, t, Overflowed(qe));
    }
  }

  lemma PushKeepsNoLoss(s: State, gen: nat)
    requires NoLoss(s)
    ensures NoLoss(Next(s, Push(gen)))
  {
    var e, t := EmitterOf(s, gen), Next(s, Push(gen));
    if e.Pushing? && |s.events| < CAPACITY {
      EnqueueKeepsNoLoss(s, t, e.qe);
    } else if e.Pushing? {
      QuietKeepsNoLoss(s, t, Overflowed(e.qe));
    }
  }

  lemma WakeKeepsNoLoss(s: State)
    requires NoLoss(s)
    ensures NoLoss(Next(s, Wake)) && NoLoss(Next(s, Begin))
  {
    var x := if s.conn.Some? then Connected(s.conn.value) else Disconnected;
    QuietKeepsNoLoss(s, Next(s, Wake), x);
    QuietKeepsNoLoss(s, Next(s, Begin), x);
  }

  lemma QuietStepKeepsNoLoss(s: State, step: Step)
    requires NoLoss(s) && (step.Drop? || step.Signal? || step.Unmark? || step.Dequeue? || step.DrainSignal?)
    ensures NoLoss(Next(s, step))
  {
    var x := if step.Drop? then Dropped(step.gen) else Disconnected;
    QuietKeepsNoLoss(s, Next(s, step), x);
  }

  lemma StepKeepsNoLoss(s: State, step: Step)
    requires Invariant(s)
    ensures NoLoss(Next(s, step))
  {
    match step
    case Swap => SwapKeepsNoLoss(s);
    case Mark(gen, window) => MarkKeepsNoLoss(s, gen, window);
    case Push(gen) => PushKeepsNoLoss(s, gen);
    case EmitOther(gen, kind, window) => OtherKeepsNoLoss(s, gen, kind, window);
    case Receive => ReceiveKeepsNoLoss(s);
    case Settle => SettleKeepsNoLoss(s);
    case Begin => WakeKeepsNoLoss(s);
    case Wake => WakeKeepsNoLoss(s);
    case _ => QuietStepKeepsNoLoss(s, step);
  }
}
