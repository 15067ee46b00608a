/** The driver object behind the event stream: each method is one critical
    section or channel operation, and does what the step of the same name
    does. */
module WebExtDriver {
  import opened BrowserTypes
  import opened WebExt

  class Driver {
    var conn: Option<nat>
    var generation: nat
    var closed: set<nat>
    var signals: nat
    var stateChanged: bool
    var events: seq<Queued>
    var queuedTabs: set<Queued>
    var emitters: map<nat, Emitter>
    var sub: Subscriber
    var deliveredGen: nat
    var deliveredConnected: bool
    ghost var history: seq<Happening>

    ghost function View(): State
      reads this
    {
      State(conn, generation, closed, signals, stateChanged, events, queuedTabs, emitters, sub, deliveredGen,
            deliveredConnected, history)
    }

    constructor ()
      ensures View() == INITIAL
    {
      conn, generation, closed, signals, stateChanged := None, 0, {}, 0, false;
      events, queuedTabs, emitters := [], {}, map[];
      sub, deliveredGen, deliveredConnected := Waiting, 0, false;
      history := [];
    }

    /** A new connection replaces the current one. */
    method Swap() returns (gen: nat)
      modifies this
      ensures View() == Next(old(View()), Step.Swap) && gen == generation
    {
      generation := generation + 1;
      gen := generation;
      conn := Some(gen);
      signals := signals + 1;
      history := history + [Swapped(gen)];
    }

    /** The reader of connection `gen` has returned. */
    method Drop(gen: nat)
      requires Reading(View(), gen)
      modifies this
      ensures View() == Next(old(View()), Step.Drop(gen))
    {
      closed := closed + {gen};
      if conn == Some(gen) {
        conn := None;
        signals := signals + 1;
        history := history + [Dropped(gen)];
      }
    }

    method SignalState()
      requires signals > 0
      modifies this
      ensures View() == Next(old(View()), Signal)
    {
      signals := signals - 1;
      stateChanged := true;
    }

    /** First half of emitting a tab change: it is coalesced when a copy is
        already marked as queued. */
    method MarkTab(gen: nat, window: WindowId) returns (coalesced: bool)
      requires Reading(View(), gen)
      modifies this
      ensures View() == Next(old(View()), Mark(gen, window))
      ensures coalesced <==> Queued(gen, TabsChanged(window)) in old(queuedTabs)
    {
      var qe := Queued(gen, TabsChanged(window));
      coalesced := qe in queuedTabs;
      if coalesced {
        history := history + [Coalesced(qe)];
      } else {
        queuedTabs := queuedTabs + {qe};
        emitters := emitters[gen := Pushing(qe)];
      }
    }

    /** Second half: the push drops the event when the queue is full. */
    method PushTab(gen: nat)
      requires EmitterOf(View(), gen).Pushing?
      modifies this
      ensures View() == Next(old(View()), Push(gen))
    {
      var qe := emitters[gen].qe;
      if |events| < CAPACITY {
        events := events + [qe];
        emitters := emitters[gen := Idle];
        history := history + [Enqueued(qe)];
      } else {
        emitters := emitters[gen := Unmarking(qe)];
        history := history + [Overflowed(qe)];
      }
    }

    method UnmarkTab(gen: nat)
      requires EmitterOf(View(), gen).Unmarking?
      modifies this
      ensures View() == Next(old(View()), Unmark(gen))
    {
      queuedTabs := queuedTabs - {emitters[gen].qe};
      emitters := emitters[gen := Idle];
    }

    method EmitPlain(gen: nat, kind: string, window: WindowId)
      requires Reading(View(), gen)
      modifies this
      ensures View() == Next(old(View()), EmitOther(gen, kind, window))
    {
      var qe := Queued(gen, OtherEvent(kind, window));
      if |events| < CAPACITY {
        events := events + [qe];
        history := history + [Enqueued(qe)];
      } else {
        history := history + [Overflowed(qe)];
      }
    }

    method Announce()
      modifies this
      ensures View() == SyncState(old(View()))
    {
      if conn.Some? && conn.value != deliveredGen {
        deliveredGen, deliveredConnected := conn.value, true;
        history := history + [Connected(deliveredGen)];
      } else if conn.None? && deliveredConnected {
        deliveredConnected := false;
        history := history + [Disconnected];
      }
    }

    /** The look at the connection state with which a subscription begins. */
    method BeginSubscription()
      requires sub == Waiting
      modifies this
      ensures View() == Next(old(View()), Begin)
    {
      Announce();
    }

    method OnStateChanged()
      requires sub == Waiting && stateChanged
      modifies this
      ensures View() == Next(old(View()), Wake)
    {
      stateChanged := false;
      Announce();
    }

    method ReceiveEvent()
      requires sub == Waiting && events != []
      modifies this
      ensures View() == Next(old(View()), Receive)
    {
      sub := Received(events[0]);
      events := events[1..];
    }

    method Dequeued()
      requires sub.Received?
      modifies this
      ensures View() == Next(old(View()), Dequeue)
    {
      if sub.qe.ev.TabsChanged? {
        queuedTabs := queuedTabs - {sub.qe};
      }
      sub := Unmarked(sub.qe);
    }

    method Drain()
      requires sub.Unmarked?
      modifies this
      ensures View() == Next(old(View()), DrainSignal)
    {
      stateChanged := false;
      sub := Drained(sub.qe);
    }

    /** The event is passed on only when its own connection is announced. */
    method DeliverOrDiscard() returns (delivered: bool)
      requires sub.Drained?
      modifies this
      ensures View() == Next(old(View()), Settle)
      ensures delivered <==> View().history != SyncState(old(View()).(sub := Waiting)).history
    {
      var qe := sub.qe;
      sub := Waiting;
      Announce();
      delivered := deliveredConnected && qe.gen == deliveredGen;
      if delivered {
        history := history + [Delivered(qe)];
      }
    }
  }
}
