/** Every step keeps the connections in order and the marks in place. */
module WebExtSteps {
  import opened BrowserTypes
  import opened WebExt

  lemma Extend(h: seq<Happening>, x: Happening)
    ensures x.Connected? ==>
              Announced(h + [x]) == Some(x.gen) && Highest(h + [x]) == if x.gen > Highest(h) then x.gen else Highest(h)
    ensures x.Disconnected? ==> Announced(h + [x]) == None
    ensures !x.Connected? && !x.Disconnected? ==> Announced(h + [x]) == Announced(h)
    ensures !x.Connected? ==> Highest(h + [x]) == Highest(h)
    ensures Orderly(h + [x]) <==> Orderly(h) && InOrder(h, x)
    ensures Owed(h + [x]) == OwedAfter(Owed(h), x)
  {
    assert (h + [x])[..|h|] == h;
  }

  lemma ExtendStreams(h: seq<Happening>, x: Happening, gen: nat)
    ensures EnqueuedBy(h + [x], gen) == EnqueuedBy(h, gen) + (if x.Enqueued? && x.qe.gen == gen then [x.qe] else [])
    ensures DeliveredFor(h + [x], gen) ==
            DeliveredFor(h, gen) + (if x.Delivered? && x.qe.gen == gen then [x.qe] else [])
  {
    assert (h + [x])[..|h|] == h;
  }

  lemma {:induction false} OfGenerationAppend(events: seq<Queued>, qe: Queued, gen: nat)
    ensures OfGeneration(events + [qe], gen) == OfGeneration(events, gen) + (if qe.gen == gen then [qe] else [])
  {
    if events != [] {
      assert (events + [qe])[1..] == events[1..] + [qe];
      OfGenerationAppend(events[1..], qe, gen);
    }
  }

  // --- every step keeps the invariant ----------------------------------------

  lemma SyncKeepsConnections(s: State)
    requires Connections(s)
    ensures Connections(SyncState(s))
    ensures SyncState(s).deliveredConnected <==> s.conn.Some?
    ensures s.conn.Some? ==> SyncState(s).deliveredGen == s.conn.value
  {
    if s.conn.Some? && s.conn.value != s.deliveredGen {
      Extend(s.history, Connected(s.conn.value));
    } else if s.conn.None? && s.deliveredConnected {
      Extend(s.history, Disconnected);
    }
  }

  /** Only the connection fields and the history matter to `Connections`. */
  lemma ConnectionsFrame(s: State, t: State)
    requires Connections(s) && t.conn == s.conn && t.generation == s.generation && t.closed == s.closed
    requires t.deliveredGen == s.deliveredGen && t.deliveredConnected == s.deliveredConnected
    requires t.history == s.history ||
             exists x :: t.history == s.history + [x] && !x.Connected? && !x.Disconnected? && InOrder(s.history, x)
    ensures Connections(t)
  {
    if t.history != s.history {
      var x :| t.history == s.history + [x] && !x.Connected? && !x.Disconnected? && InOrder(s.history, x);
      Extend(s.history, x);
    }
  }

  lemma SwapKeepsConnections(s: State)
    requires Connections(s)
    ensures Connections(Next(s, Swap))
  {
    Extend(s.history, Swapped(s.generation + 1));
  }

  lemma ClosingKeepsConnections(s: State, gen: nat)
    requires Connections(s) && gen <= s.generation && s.conn != Some(gen)
    ensures Connections(s.(closed := s.closed + {gen}))
  {
  }

  lemma DropKeepsConnections(s: State, gen: nat)
    requires Connections(s)
    ensures Connections(Next(s, Drop(gen)))
  {
    if Reading(s, gen) {
      if s.conn == Some(gen) {
        ClosingKeepsConnections(s.(conn := None), gen);
        var t := s.(conn := None, closed := s.closed + {gen});
        assert InOrder(s.history, Dropped(gen));
        ConnectionsFrame(t, Next(s, Drop(gen)));
      } else {
        ClosingKeepsConnections(s, gen);
      }
    }
  }

  lemma SettleKeepsConnections(s: State)
    requires Connections(s)
    ensures Connections(Next(s, Settle))
  {
    if s.sub.Drained? {
      var t := SyncState(s.(sub := Waiting));
      SyncKeepsConnections(s.(sub := Waiting));
      if t.deliveredConnected && s.sub.qe.gen == t.deliveredGen {
        assert InOrder(t.history, Delivered(s.sub.qe));
        ConnectionsFrame(t, Next(s, Settle));
      }
    }
  }

  /** A change of the connection the subscriber has not taken yet has a look
      coming. */
  lemma StepKeepsLook(s: State, step: Step)
    requires Connections(s) && (LookPending(s) || TookConnection(s))
    ensures LookPending(Next(s, step)) || TookConnection(Next(s, step))
  {
  }

  lemma StepKeepsConnections(s: State, step: Step)
    requires Connections(s)
    ensures Connections(Next(s, step))
  {
    match step
    case Swap =>
      SwapKeepsConnections(s);
    case Drop(gen) => DropKeepsConnections(s, gen);
    case Begin => SyncKeepsConnections(s);
    case Wake =>
      if s.sub == Waiting && s.stateChanged {
        SyncKeepsConnections(s.(stateChanged := false));
      }
    case Settle => SettleKeepsConnections(s);
    case Mark(gen, window) => QuietKeepsConnections(s, step, Coalesced(Queued(gen, TabsChanged(window))));
    case EmitOther(gen, kind, window) =>
      var qe := Queued(gen, OtherEvent(kind, window));
      QuietKeepsConnections(s, step, if |s.events| < CAPACITY then Enqueued(qe) else Overflowed(qe));
    case Push(gen) =>
      if EmitterOf(s, gen).Pushing? {
        var qe := EmitterOf(s, gen).qe;
        QuietKeepsConnections(s, step, if |s.events| < CAPACITY then Enqueued(qe) else Overflowed(qe));
      }
    case _ => QuietKeepsConnections(s, step, Dropped(0));
  }

  lemma QuietKeepsConnections(s: State, step: Step, x: Happening)
    requires Connections(s) && (x.Coalesced? || x.Enqueued? || x.Overflowed? || x.Dropped?)
    requires var t := Next(s, step);
             && t.conn == s.conn && t.generation == s.generation && t.closed == s.closed
             && t.deliveredGen == s.deliveredGen && t.deliveredConnected == s.deliveredConnected
             && (t.history == s.history || t.history == s.history + [x])
    ensures Connections(Next(s, step))
  {
    assert InOrder(s.history, x);
    ConnectionsFrame(s, Next(s, step));
  }

  /** Only the queue, the marks, the readers and the subscriber matter to
      `Marks`. */
  lemma MarksFrame(s: State, t: State)
    requires Marks(s) && t.events == s.events && t.queuedTabs == s.queuedTabs && t.emitters == s.emitters
    requires t.sub == s.sub || (!t.sub.Received? && !s.sub.Received?)
    ensures Marks(t)
  {}

  lemma StepKeepsMarks(s: State, step: Step)
    requires Marks(s)
    ensures Marks(Next(s, step))
  {
    match step
    case Mark(gen, window) => MarkKeepsMarks(s, gen, window);
    case Push(gen) => PushKeepsMarks(s, gen);
    case Unmark(gen) => UnmarkKeepsMarks(s, gen);
    case EmitOther(gen, kind, window) => OtherKeepsMarks(s, gen, kind, window);
    case Receive => ReceiveKeepsMarks(s);
    case Dequeue => DequeueKeepsMarks(s);
    case _ => MarksFrame(s, Next(s, step));
  }

  lemma MarkKeepsMarks(s: State, gen: nat, window: WindowId)
    requires Marks(s)
    ensures Marks(Next(s, Mark(gen, window)))
  {
    var qe := Queued(gen, TabsChanged(window));
    var t := Next(s, Mark(gen, window));
    if Reading(s, gen) && qe !in s.queuedTabs {
      assert forall x :: x != qe ==> (Emitting(t, x) ==> Emitting(s, x));
      assert qe !in s.events;
    } else {
      MarksFrame(s, t);
    }
  }

  lemma PushKeepsMarks(s: State, gen: nat)
    requires Marks(s)
    ensures Marks(Next(s, Push(gen)))
  {
    var e := EmitterOf(s, gen);
    if e.Pushing? {
      var t := Next(s, Push(gen));
      assert e.qe.gen == gen && Emitting(s, e.qe) && e.qe !in s.events;
      if |s.events| < CAPACITY {
        Appended(s.events, e.qe);
        assert forall qe :: qe != e.qe ==> (Emitting(t, qe) <==> Emitting(s, qe));
      } else {
        assert forall qe :: Emitting(t, qe) <==> Emitting(s, qe);
      }
    }
  }

  lemma Appended(events: seq<Queued>, qe: Queued)
    requires QueuedOnce(events) && (IsTabChange(qe) ==> qe !in events)
    ensures QueuedOnce(events + [qe])
    ensures forall x :: x in events + [qe] <==> x in events || x == qe
  {}

  lemma UnmarkKeepsMarks(s: State, gen: nat)
    requires Marks(s)
    ensures Marks(Next(s, Unmark(gen)))
  {}

  lemma OtherKeepsMarks(s: State, gen: nat, kind: string, window: WindowId)
    requires Marks(s)
    ensures Marks(Next(s, EmitOther(gen, kind, window)))
  {
    var qe := Queued(gen, OtherEvent(kind, window));
    var t := Next(s, EmitOther(gen, kind, window));
    if t.events == s.events {
      MarksFrame(s, t);
    } else {
      Appended(s.events, qe);
      assert forall x :: Emitting(t, x) == Emitting(s, x);
    }
  }

  lemma ReceiveKeepsMarks(s: State)
    requires Marks(s)
    ensures Marks(Next(s, Receive))
  {}

  lemma DequeueKeepsMarks(s: State)
    requires Marks(s)
    ensures Marks(Next(s, Dequeue))
  {}
}
