/** Requests to the browser extension: each waits on a channel of its own that
    is answered once or closed once, never both. */
module WebExtCalls {
  import opened BrowserTypes

  type ConnId = nat
  type CallId = nat

  /** The channel of a call: empty, holding its answer, or closed. */
  datatype Channel = Empty | Answered(answer: string) | Closed

  datatype Request = Request(conn: ConnId, channel: Channel)

  /** `pending`: the calls waiting on each connection, none once it has failed.
      `taken`: answers taken for a call and not yet put into its channel.
      `left`: calls that have returned. `crashed`: something was put into a
      channel that was closed or full. */
  datatype State = State(next: CallId, pending: map<ConnId, Option<set<CallId>>>, calls: map<CallId, Request>,
                         taken: map<CallId, string>, left: set<CallId>, crashed: bool)

  const INITIAL := State(1, map[], map[], map[], {}, false)

  datatype Step =
    | Open(conn: ConnId)
    | Call(conn: ConnId)
    | Take(conn: ConnId, id: CallId, answer: string)
    | Put(id: CallId)
    | FailPending(conn: ConnId)
    | Leave(id: CallId)

  function Waiting(s: State, conn: ConnId): set<CallId> {
    if conn in s.pending && s.pending[conn].Some? then s.pending[conn].value else {}
  }

  function Without(s: State, conn: ConnId, id: CallId): map<ConnId, Option<set<CallId>>> {
    if conn in s.pending && s.pending[conn].Some? then s.pending[conn := Some(s.pending[conn].value - {id})]
    else s.pending
  }

  function Next(s: State, step: Step): State {
    match step
    case Open(c) => if c in s.pending then s else s.(pending := s.pending[c := Some({})])
    case Call(c) =>
      if c !in s.pending || s.pending[c].None? then s.(next := s.next + 1)
      else s.(next := s.next + 1, pending := s.pending[c := Some(Waiting(s, c) + {s.next})],
              calls := s.calls[s.next := Request(c, Empty)])
    case Take(c, id, answer) =>
      if id !in Waiting(s, c) then s
      else s.(pending := Without(s, c, id), taken := s.taken[id := answer])
    case Put(id) =>
      if id !in s.taken then s
      else if id in s.calls && s.calls[id].channel.Empty?
      then s.(taken := s.taken - {id}, calls := s.calls[id := s.calls[id].(channel := Answered(s.taken[id]))])
      else s.(taken := s.taken - {id}, crashed := true)
    case FailPending(c) =>
      s.(pending := s.pending[c := None],
         calls := map id | id in s.calls ::
                    if id in Waiting(s, c) then s.calls[id].(channel := Closed) else s.calls[id])
    case Leave(id) =>
      if id !in s.calls then s else s.(pending := Without(s, s.calls[id].conn, id), left := s.left + {id})
  }

  function Run(steps: seq<Step>): State {
    if steps == [] then INITIAL else Next(Run(steps[..|steps| - 1]), steps[|steps| - 1])
  }

  /** A waiting call has an empty channel and no answer on its way, and waits on
      the connection it was made on; an answer on its way finds its channel
      empty. */
  ghost predicate Invariant(s: State) {
    && !s.crashed
    && (forall id :: id in s.calls ==> id < s.next)
    && (forall c, id :: c in s.pending && id in Waiting(s, c) ==>
          id in s.calls && s.calls[id] == Request(c, Empty) && id !in s.taken)
    && (forall id :: id in s.taken ==> id in s.calls && s.calls[id].channel.Empty?)
  }

  lemma FailKeepsInvariant(s: State, c: ConnId)
    requires Invariant(s)
    ensures Invariant(Next(s, FailPending(c)))
  {
  }

  lemma TakeKeepsInvariant(s: State, c: ConnId, id: CallId, answer: string)
    requires Invariant(s)
    ensures Invariant(Next(s, Take(c, id, answer)))
  {
  }

  lemma CallKeepsInvariant(s: State, c: ConnId)
    requires Invariant(s)
    ensures Invariant(Next(s, Call(c)))
  {
    var t := Next(s, Call(c));
    forall d, id | d in t.pending && id in Waiting(t, d)
      ensures id in t.calls && t.calls[id] == Request(d, Empty) && id !in t.taken
    {
      if id in Waiting(s, d) {
        assert d in s.pending && s.calls[id] == Request(d, Empty) && id < s.next;
      } else {
        assert d == c && id == s.next && t.calls[s.next] == Request(c, Empty);
      }
    }
  }

  lemma StepKeepsInvariant(s: State, step: Step)
    requires Invariant(s)
    ensures Invariant(Next(s, step))
  {
    match step
    case FailPending(c) => FailKeepsInvariant(s, c);
    case Take(c, id, answer) => TakeKeepsInvariant(s, c, id, answer);
    case Call(c) => CallKeepsInvariant(s, c);
    case _ =>
  }

  lemma {:induction false} RunKeepsInvariant(steps: seq<Step>)
    ensures Invariant(Run(steps))
  {
    if steps != [] {
      RunKeepsInvariant(steps[..|steps| - 1]);
      StepKeepsInvariant(Run(steps[..|steps| - 1]), steps[|steps| - 1]);
    }
  }

  /** A channel once answered or closed stays as it is, and only the connection
      a call was made on can answer or fail it. */
  ghost predicate Settles(s: State, t: State, step: Step, id: CallId)
    requires id in s.calls && id in t.calls
  {
    && t.calls[id].conn == s.calls[id].conn
    && (!s.calls[id].channel.Empty? ==> t.calls[id] == s.calls[id])
    && (t.calls[id].channel.Closed? && s.calls[id].channel.Empty? ==>
          step.FailPending? && step.conn == s.calls[id].conn)
    && (id in t.taken && id !in s.taken ==> step.Take? && step.id == id && step.conn == s.calls[id].conn)
  }

  lemma CallsStay(s: State, step: Step, id: CallId)
    requires Invariant(s) && id in s.calls
    ensures id in Next(s, step).calls && Settles(s, Next(s, step), step, id)
  {
    match step
    case Take(c, j, answer) =>
    case Leave(j) =>
    case _ =>
  }

  /** In every run no answer is put into a closed or full channel, and every
      step settles calls that way. */
  lemma SettledOnce(steps: seq<Step>, step: Step, id: CallId)
    requires id in Run(steps).calls
    ensures !Next(Run(steps), step).crashed && id in Next(Run(steps), step).calls
    ensures Settles(Run(steps), Next(Run(steps), step), step, id)
  {
    RunKeepsInvariant(steps);
    StepKeepsInvariant(Run(steps), step);
    CallsStay(Run(steps), step, id);
  }

  /** Every call waits, has returned, has its answer on the way, or finds its
      channel answered or closed. */
  ghost predicate Discharged(s: State) {
    forall id :: id in s.calls ==>
      s.calls[id].conn in s.pending
      && (id in Waiting(s, s.calls[id].conn) || id in s.left || id in s.taken || !s.calls[id].channel.Empty?)
  }

  lemma StepKeepsDischarged(s: State, step: Step)
    requires Invariant(s) && Discharged(s)
    ensures Discharged(Next(s, step))
  {
  }

  lemma {:induction false} NobodyIsForgotten(steps: seq<Step>)
    ensures Discharged(Run(steps))
  {
    if steps != [] {
      NobodyIsForgotten(steps[..|steps| - 1]);
      RunKeepsInvariant(steps[..|steps| - 1]);
      StepKeepsDischarged(Run(steps[..|steps| - 1]), steps[|steps| - 1]);
    }
  }

  /** Nothing waits on a connection that has failed, and no new call is
      accepted there. */
  lemma FailedConnectionHoldsNobody(steps: seq<Step>, id: CallId)
    requires var s := Run(steps); id in s.calls && s.calls[id].conn in s.pending && s.pending[s.calls[id].conn].None?
    ensures var s := Run(steps);
            && (id in s.left || id in s.taken || !s.calls[id].channel.Empty?)
            && Next(s, Call(s.calls[id].conn)).calls == s.calls
  {
    NobodyIsForgotten(steps);
  }

  // --- the connections ------------------------------------------------------------

  /** What one call holds on to: its connection and its channel. */
  class Calls {
    var next: CallId
    var pending: map<ConnId, Option<set<CallId>>>
    var calls: map<CallId, Request>
    var taken: map<CallId, string>
    ghost var left: set<CallId>
    var crashed: bool

    ghost function View(): State
      reads this
    {
      State(next, pending, calls, taken, left, crashed)
    }

    constructor ()
      ensures View() == INITIAL
    {
      next, pending, calls, taken, left, crashed := 1, map[], map[], map[], {}, false;
    }

    /** Registers a call on the connection, unless it has failed. */
    method Register(conn: ConnId) returns (id: CallId, ok: bool)
      modifies this
      ensures View() == Next(old(View()), Call(conn))
      ensures ok <==> conn in old(pending) && old(pending)[conn].Some?
      ensures ok ==> id in pending[conn].value && id in calls && calls[id] == Request(conn, Empty)
    {
      id := next;
      next := next + 1;
      ok := conn in pending && pending[conn].Some?;
      if ok {
        pending := pending[conn := Some(pending[conn].value + {id})];
        calls := calls[id := Request(conn, Empty)];
      }
    }

    /** A response arrives: the call it answers no longer waits. */
    method Resolve(conn: ConnId, id: CallId, answer: string) returns (known: bool)
      modifies this
      ensures View() == Next(old(View()), Take(conn, id, answer))
      ensures known <==> id in Waiting(old(View()), conn)
    {
      known := conn in pending && pending[conn].Some? && id in pending[conn].value;
      if known {
        pending := pending[conn := Some(pending[conn].value - {id})];
        taken := taken[id := answer];
      }
    }

    /** The answer goes into the channel. */
    method Deliver(id: CallId)
      requires Invariant(View()) && id in taken
      modifies this
      ensures View() == Next(old(View()), Put(id)) && !crashed
    {
      calls := calls[id := calls[id].(channel := Answered(taken[id]))];
      taken := taken - {id};
    }

    /** The connection is gone: every waiting channel is closed. */
    method Fail(conn: ConnId)
      modifies this
      ensures View() == Next(old(View()), FailPending(conn))
    {
      var rest := if conn in pending && pending[conn].Some? then pending[conn].value else {};
      calls := map id | id in calls :: if id in rest then calls[id].(channel := Closed) else calls[id];
      pending := pending[conn := None];
    }

    method Return(id: CallId)
      requires id in calls
      modifies this
      ensures View() == Next(old(View()), Leave(id))
    {
      var conn := calls[id].conn;
      if conn in pending && pending[conn].Some? {
        pending := pending[conn := Some(pending[conn].value - {id})];
      }
      left := left + {id};
    }
  }
}
