/** Whose answer a request to the extension gets. */
module WebExtAnswers {
  import opened BrowserTypes
  import opened WebExtCalls

  /** Step `k` took this answer for the call, which was waiting on that
      connection. */
  ghost predicate TookAt(steps: seq<Step>, k: nat, conn: ConnId, id: CallId, answer: string) {
    k < |steps| && steps[k] == Take(conn, id, answer) && id in Waiting(Run(steps[..k]), conn)
  }

  lemma TookEarlier(steps: seq<Step>, k: nat, conn: ConnId, id: CallId, answer: string)
    requires steps != [] && TookAt(steps[..|steps| - 1], k, conn, id, answer)
    ensures TookAt(steps, k, conn, id, answer)
  {
    assert steps[..|steps| - 1][..k] == steps[..k];
  }

  lemma {:induction false} TakenWasSent(steps: seq<Step>, id: CallId) returns (k: nat)
    requires id in Run(steps).taken
    ensures k < |steps| && steps[k].Take? && TookAt(steps, k, steps[k].conn, id, Run(steps).taken[id])
  {
    var n := |steps| - 1;
    var s := Run(steps[..n]);
    if steps[n].Take? && steps[n].id == id && id in Waiting(s, steps[n].conn) {
      k := n;
    } else {
      k := TakenWasSent(steps[..n], id);
      TookEarlier(steps, k, steps[k].conn, id, Run(steps).taken[id]);
    }
  }

  /** In every run an answered call got the answer that was sent for it, over the
      connection it was made on and while it was waiting there. */
  lemma {:induction false} AnswerWasSent(steps: seq<Step>, id: CallId) returns (k: nat)
    requires id in Run(steps).calls && Run(steps).calls[id].channel.Answered?
    ensures var call := Run(steps).calls[id]; TookAt(steps, k, call.conn, id, call.channel.answer)
  {
    var n := |steps| - 1;
    var s := Run(steps[..n]);
    RunKeepsInvariant(steps[..n]);
    if id in s.calls && s.calls[id].channel.Answered? {
      k := AnswerWasSent(steps[..n], id);
      CallsStay(s, steps[n], id);
      TookEarlier(steps, k, s.calls[id].conn, id, s.calls[id].channel.answer);
    } else {
      AnsweredByPut(s, steps[n], id);
      k := TakenWasSent(steps[..n], id);
      WaitsWhereMade(steps[..n], k, steps[k].conn, id, s.taken[id]);
      TookEarlier(steps, k, steps[k].conn, id, s.taken[id]);
    }
  }

  lemma AnsweredByPut(s: State, step: Step, id: CallId)
    requires Invariant(s) && !(id in s.calls && s.calls[id].channel.Answered?)
    requires id in Next(s, step).calls && Next(s, step).calls[id].channel.Answered?
    ensures step == Put(id) && id in s.taken && id in s.calls
    ensures Next(s, step).calls[id] == Request(s.calls[id].conn, Answered(s.taken[id]))
  {
  }

  lemma WaitsWhereMade(steps: seq<Step>, k: nat, conn: ConnId, id: CallId, answer: string)
    requires TookAt(steps, k, conn, id, answer) && id in Run(steps).calls
    ensures Run(steps).calls[id].conn == conn
  {
    RunKeepsInvariant(steps[..k]);
    MadeOnStays(steps, k, id);
  }

  lemma {:induction false} MadeOnStays(steps: seq<Step>, k: nat, id: CallId)
    requires k <= |steps| && id in Run(steps[..k]).calls
    ensures id in Run(steps).calls && Run(steps).calls[id].conn == Run(steps[..k]).calls[id].conn
  {
    if k < |steps| {
      var n := |steps| - 1;
      assert steps[..n][..k] == steps[..k];
      MadeOnStays(steps[..n], k, id);
      RunKeepsInvariant(steps[..n]);
      CallsStay(Run(steps[..n]), steps[n], id);
    } else {
      assert steps[..k] == steps;
    }
  }

  /** In every run, an answer for a waiting call reaches that call and no other,
      and it waits no longer. */
  lemma WaitingIsAnswered(steps: seq<Step>, conn: ConnId, id: CallId, answer: string)
    requires conn in Run(steps).pending && id in Waiting(Run(steps), conn)
    ensures var s := Run(steps);
            var t := Next(Next(s, Take(conn, id, answer)), Put(id));
            && t.calls == s.calls[id := Request(conn, Answered(answer))] && t.taken == s.taken && !t.crashed
            && Waiting(t, conn) == Waiting(s, conn) - {id}
            && forall c :: c != conn ==> Waiting(t, c) == Waiting(s, c)
  {
    RunKeepsInvariant(steps);
    TakenAndPut(Run(steps), conn, id, answer);
  }

  lemma TakenAndPut(s: State, conn: ConnId, id: CallId, answer: string)
    requires conn in s.pending && id in Waiting(s, conn) && !s.crashed
    requires id in s.calls && s.calls[id] == Request(conn, Empty) && id !in s.taken
    ensures var t := Next(Next(s, Take(conn, id, answer)), Put(id));
            && t.calls == s.calls[id := Request(conn, Answered(answer))] && t.taken == s.taken && !t.crashed
            && t.pending == s.pending[conn := Some(Waiting(s, conn) - {id})]
  {
  }

  /** In every run, an answer for a call that is not waiting there is ignored. */
  lemma UnknownIsIgnored(steps: seq<Step>, conn: ConnId, id: CallId, answer: string)
    requires id !in Waiting(Run(steps), conn)
    ensures Next(Run(steps), Take(conn, id, answer)) == Run(steps)
  {
  }

  /** In every run, the end of a connection closes the channels of exactly the
      calls that wait on it. */
  lemma FailureCloses(steps: seq<Step>, conn: ConnId, id: CallId)
    requires id in Run(steps).calls && conn in Run(steps).pending
    ensures var s, t := Run(steps), Next(Run(steps), FailPending(conn));
            && Waiting(t, conn) == {} && t.taken == s.taken && id in t.calls
            && t.calls[id] == if id in Waiting(s, conn) then Request(conn, Closed) else s.calls[id]
  {
    RunKeepsInvariant(steps);
    ClosedBy(Run(steps), conn, id);
  }

  lemma ClosedBy(s: State, conn: ConnId, id: CallId)
    requires id in s.calls && (id in Waiting(s, conn) ==> s.calls[id] == Request(conn, Empty))
    ensures var t := Next(s, FailPending(conn));
            && Waiting(t, conn) == {} && t.taken == s.taken && id in t.calls
            && t.calls[id] == if id in Waiting(s, conn) then Request(conn, Closed) else s.calls[id]
  {
  }

  /** In every run, a call on a live connection gets a number nobody had, and
      waits there. */
  lemma CallIsNew(steps: seq<Step>, conn: ConnId)
    requires var s := Run(steps); conn in s.pending && s.pending[conn].Some?
    ensures var s, t := Run(steps), Next(Run(steps), Call(conn));
            && s.next !in s.calls && t.calls == s.calls[s.next := Request(conn, Empty)] && s.next < t.next
            && Waiting(t, conn) == Waiting(s, conn) + {s.next}
            && forall c :: c != conn ==> Waiting(t, c) == Waiting(s, c)
  {
    RunKeepsInvariant(steps);
  }

  /** In every run, a call that returns waits no longer. */
  lemma ReturnedWaitsNot(steps: seq<Step>, id: CallId)
    requires id in Run(steps).calls && Run(steps).calls[id].conn in Run(steps).pending
    ensures var s, t := Run(steps), Next(Run(steps), Leave(id));
            && t.calls == s.calls && forall c :: Waiting(t, c) == Waiting(s, c) - {id}
  {
    RunKeepsInvariant(steps);
    var s := Run(steps);
    forall c ensures c != s.calls[id].conn ==> id !in Waiting(s, c) {
    }
  }
}
