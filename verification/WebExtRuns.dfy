/** What the subscriber is guaranteed in every interleaving. */
module WebExtRuns {
  import opened BrowserTypes
  import opened WebExt
  import opened WebExtSteps
  import opened WebExtLoss

  /** In every interleaving the invariant holds. */
  lemma {:induction false} RunKeepsInvariant(steps: seq<Step>)
    ensures Invariant(Run(steps))
  {
    if steps != [] {
      var s := Run(steps[..|steps| - 1]);
      RunKeepsInvariant(steps[..|steps| - 1]);
      StepKeepsConnections(s, steps[|steps| - 1]);
      StepKeepsMarks(s, steps[|steps| - 1]);
      StepKeepsNoLoss(s, steps[|steps| - 1]);
      StepKeepsLook(s, steps[|steps| - 1]);
    }
  }

  // --- the guarantees --------------------------------------------------------

  /** An event is delivered only after its own connection was announced and
      before any later announcement. */
  lemma {:induction false} DeliveredWithinConnection(h: seq<Happening>, p: nat) returns (c: nat)
    requires Orderly(h) && p < |h| && h[p].Delivered?
    ensures c < p && h[c] == Connected(h[p].qe.gen)
    ensures forall r :: c < r < p ==> !h[r].Connected? && !h[r].Disconnected?
  {
    if p < |h| - 1 {
      c := DeliveredWithinConnection(h[..|h| - 1], p);
    } else {
      c := AnnouncedAt(h[..p], h[p].qe.gen);
    }
  }

  lemma {:induction false} AnnouncedAt(h: seq<Happening>, gen: nat) returns (c: nat)
    requires Announced(h) == Some(gen)
    ensures c < |h| && h[c] == Connected(gen)
    ensures forall r :: c < r < |h| ==> !h[r].Connected? && !h[r].Disconnected?
  {
    var n := |h| - 1;
    if h[n].Connected? {
      c := n;
    } else {
      c := AnnouncedAt(h[..n], gen);
    }
  }

  /** Announced generations strictly increase. */
  lemma {:induction false} AnnouncedIncrease(h: seq<Happening>, p: nat, r: nat)
    requires Orderly(h) && p < r < |h| && h[p].Connected? && h[r].Connected?
    ensures h[p].gen < h[r].gen
  {
    if r < |h| - 1 {
      AnnouncedIncrease(h[..|h| - 1], p, r);
    } else {
      HighestBounds(h[..r], p);
    }
  }

  lemma {:induction false} HighestBounds(h: seq<Happening>, p: nat)
    requires p < |h| && h[p].Connected?
    ensures h[p].gen <= Highest(h)
  {
    if p < |h| - 1 {
      HighestBounds(h[..|h| - 1], p);
    }
  }

  /** A coalesced tab change that is no longer owed was delivered later. */
  lemma {:induction false} SettledLater(h: seq<Happening>, p: nat) returns (r: nat)
    requires p < |h| && h[p].Coalesced? && h[p].qe !in Owed(h)
    ensures p < r < |h| && h[r] == Delivered(h[p].qe)
  {
    var n := |h| - 1;
    if h[n] == Delivered(h[p].qe) {
      r := n;
    } else {
      r := SettledLater(h[..n], p);
    }
  }

  /** In every interleaving: an event reaches the subscriber only between the
      announcement of its own connection and the next announcement, the
      announced generations strictly increase, and with no signal pending the
      one announced last is the current one. */
  lemma NoStaleDelivery(steps: seq<Step>)
    ensures var h := Run(steps).history;
            && (forall p :: 0 <= p < |h| && h[p].Delivered? ==>
                  exists c ::
                    && 0 <= c < p && h[c] == Connected(h[p].qe.gen)
                    && forall r :: c < r < p ==> !h[r].Connected? && !h[r].Disconnected?)
            && (forall p, r :: 0 <= p < r < |h| && h[p].Connected? && h[r].Connected? ==> h[p].gen < h[r].gen)
    ensures var s := Run(steps);
            s.signals == 0 && !s.stateChanged && s.sub.Waiting? ==> Announced(s.history) == s.conn
  {
    RunKeepsInvariant(steps);
    var h := Run(steps).history;
    forall p | 0 <= p < |h| && h[p].Delivered?
      ensures exists c ::
                && 0 <= c < p && h[c] == Connected(h[p].qe.gen)
                && forall r :: c < r < p ==> !h[r].Connected? && !h[r].Disconnected?
    {
      var c := DeliveredWithinConnection(h, p);
    }
    forall p, r | 0 <= p < r < |h| && h[p].Connected? && h[r].Connected? ensures h[p].gen < h[r].gen {
      AnnouncedIncrease(h, p, r);
    }
  }

  /** In every interleaving: what was announced last is the connection as it is
      now, unless a signal is still on its way or waiting, or the subscriber is
      about to look. */
  lemma EveryChangeIsTold(steps: seq<Step>)
    ensures var s := Run(steps);
            s.signals == 0 && !s.stateChanged && s.sub.Waiting? ==> Announced(s.history) == s.conn
    ensures var s := Run(steps);
            Announced(s.history) != s.conn ==> s.signals > 0 || s.stateChanged || s.sub.Drained?
  {
    RunKeepsInvariant(steps);
  }

  /** And whenever the subscriber looks, what was announced last is the
      connection as it is: at the start, on a signal and after every event. */
  lemma EveryLookTells(steps: seq<Step>, step: Step)
    requires var s := Run(steps);
             || (step == Begin && s.sub.Waiting?)
             || (step == Wake && s.sub.Waiting? && s.stateChanged)
             || (step == Settle && s.sub.Drained?)
    ensures var s := Run(steps); Announced(Next(s, step).history) == Next(s, step).conn == s.conn
  {
    RunKeepsInvariant(steps);
    StepKeepsConnections(Run(steps), step);
  }

  /** How many connections there were. */
  function Swaps(steps: seq<Step>): nat {
    if steps == [] then 0 else Swaps(steps[..|steps| - 1]) + if steps[|steps| - 1].Swap? then 1 else 0
  }

  /** The last connection was not dropped: no such step since the last swap. */
  predicate StillUp(steps: seq<Step>) {
    steps != [] &&
    var last := steps[|steps| - 1];
    last.Swap? || (last != Step.Drop(Swaps(steps)) && StillUp(steps[..|steps| - 1]))
  }

  lemma StepAndConnection(s: State, step: Step)
    ensures Next(s, step).generation == s.generation + if step.Swap? then 1 else 0
    ensures step.Swap? ==> Next(s, step).conn == Some(s.generation + 1)
    ensures !step.Swap? && s.conn.Some? && step != Step.Drop(s.conn.value) ==> Next(s, step).conn == s.conn
  {
  }

  lemma {:induction false} LastSwapIsUp(steps: seq<Step>)
    ensures Run(steps).generation == Swaps(steps)
    ensures StillUp(steps) ==> Run(steps).conn == Some(Swaps(steps))
  {
    if steps != [] {
      LastSwapIsUp(steps[..|steps| - 1]);
      StepAndConnection(Run(steps[..|steps| - 1]), steps[|steps| - 1]);
    }
  }

  /** In every interleaving: a connection that replaced the one before and was
      not dropped is the one announced last, once all signals are taken. */
  lemma NewConnectionIsTold(steps: seq<Step>)
    requires StillUp(steps) && !LookPending(Run(steps))
    ensures Announced(Run(steps).history) == Some(Swaps(steps))
  {
    LastSwapIsUp(steps);
    EveryChangeIsTold(steps);
  }

  /** In every interleaving: a reader's tab change is coalesced exactly if a copy
      of it is queued or was just received; otherwise it is marked and pushed. */
  lemma CoalescedIff(steps: seq<Step>, gen: nat, w: WindowId)
    requires Reading(Run(steps), gen)
    ensures var s, qe := Run(steps), Queued(gen, TabsChanged(w));
            var t := Next(s, Mark(gen, w));
            if qe in s.events || s.sub == Received(qe) then t == s.(history := s.history + [Coalesced(qe)])
            else EmitterOf(t, gen) == Pushing(qe) && t.history == s.history
  {
    RunKeepsInvariant(steps);
  }

  lemma {:induction false} QueueIsBounded(steps: seq<Step>)
    ensures |Run(steps).events| <= 256
  {
    if steps != [] {
      QueueIsBounded(steps[..|steps| - 1]);
    }
  }

  /** In every interleaving: what a reader pushes is queued last, unless 256
      events are queued already; then it is dropped. */
  lemma DroppedIffFull(steps: seq<Step>, gen: nat, step: Step, qe: Queued)
    requires var s := Run(steps);
             || (step == Push(gen) && EmitterOf(s, gen) == Pushing(qe))
             || (step.EmitOther? && Reading(s, step.gen) && qe == Queued(step.gen, OtherEvent(step.kind, step.window)))
    ensures var s, t := Run(steps), Next(Run(steps), step);
            if |s.events| == 256 then t.events == s.events && t.history == s.history + [Overflowed(qe)]
            else t.events == s.events + [qe] && t.history == s.history + [Enqueued(qe)]
  {
    QueueIsBounded(steps);
  }

  /** In every interleaving: the queue holds at most one copy of a tab change. */
  lemma AtMostOneCopy(steps: seq<Step>, i: nat, j: nat)
    requires i < j < |Run(steps).events| && Run(steps).events[i].ev.TabsChanged?
    ensures Run(steps).events[i] != Run(steps).events[j]
  {
    RunKeepsInvariant(steps);
  }

  /** In every interleaving: a tab change coalesced away is followed by a
      delivery of that change, unless its connection has ended or a copy is
      still on its way. */
  lemma CoalescedIsDelivered(steps: seq<Step>, p: nat)
    requires p < |Run(steps).history| && Run(steps).history[p].Coalesced?
    ensures var s := Run(steps);
            var qe := s.history[p].qe;
            || (exists r :: p < r < |s.history| && s.history[r] == Delivered(qe))
            || s.conn != Some(qe.gen)
            || qe in s.events || qe in Held(s)
  {
    RunKeepsInvariant(steps);
    var s := Run(steps);
    if s.history[p].qe !in Owed(s.history) {
      var r := SettledLater(s.history, p);
    }
  }

  /** In every interleaving: while a connection lasts, the events it got into
      the queue are delivered exactly once each and in order; the rest of them
      are still on their way. */
  lemma DeliveredExactlyOnceInOrder(steps: seq<Step>, gen: nat)
    requires Run(steps).conn == Some(gen)
    ensures var s := Run(steps);
            EnqueuedBy(s.history, gen) == DeliveredFor(s.history, gen) + OfGeneration(Held(s) + s.events, gen)
    ensures var s := Run(steps);
            s.events == [] && s.sub == Waiting ==> DeliveredFor(s.history, gen) == EnqueuedBy(s.history, gen)
  {
    RunKeepsInvariant(steps);
    var s := Run(steps);
    if s.events == [] && s.sub == Waiting {
      assert Held(s) + s.events == [];
    }
  }
}
