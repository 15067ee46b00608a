/** A connection that went down is always somebody's to bring back. */
module ConnSupervision {
  import opened BrowserTypes
  import opened ConnManager

  /** The entry's process has a supervisor of the entry's generation: it watches
      while the connection is up, and rests or asks for it while it is down. */
  ghost predicate Guarded(s: State) {
    s.entry.Some? && !s.closed ==>
      var e := s.entry.value;
      && e.proc in s.supervisors && s.supervisors[e.proc].generation == e.generation
      && (e.up <==> s.supervisors[e.proc].phase.Watching?)
  }

  lemma StepKeepsGuarded(s: State, step: Step)
    requires Invariant(s) && Guarded(s) && Rested(s, step)
    ensures Guarded(Next(s, step))
  {
    match step
    case Ensure(asker) =>
    case Connect =>
    case TrialFails(again) =>
    case Notice(p) =>
    case _ =>
  }

  lemma {:induction false} RunKeepsGuarded(steps: seq<Step>)
    requires RestedRun(steps)
    ensures Guarded(Run(steps))
  {
    if steps != [] {
      var init := steps[..|steps| - 1];
      RunKeepsGuarded(init);
      RunKeepsInvariant(init);
      StepKeepsGuarded(Run(init), steps[|steps| - 1]);
    }
  }

  /** In every run that waits after a release: a connection that is down, with
      nothing closed, has its own supervisor, which rests or asks for it. */
  lemma NeverAbandoned(steps: seq<Step>)
    requires RestedRun(steps)
    ensures var s := Run(steps);
            s.entry.Some? && !s.entry.value.up && !s.closed ==>
              && s.entry.value.proc in s.supervisors
              && s.supervisors[s.entry.value.proc].generation == s.entry.value.generation
              && !s.supervisors[s.entry.value.proc].phase.Watching?
  {
    RunKeepsGuarded(steps);
  }

  /** The exit of the entry's process is noticed by its supervisor: it marks the
      connection down and rests the shortest time. */
  lemma ExitIsNoticed(steps: seq<Step>)
    requires RestedRun(steps)
    requires var s := Run(steps); s.entry.Some? && s.entry.value.up && !s.closed && s.entry.value.proc !in s.alive
    ensures var s := Run(steps);
            var p, t := s.entry.value.proc, Next(s, Notice(s.entry.value.proc));
            t == s.(entry := Some(s.entry.value.(up := false)),
                    supervisors := s.supervisors[p := Supervisor(s.entry.value.generation, Resting(1))])
  {
    RunKeepsGuarded(steps);
  }

  predicate Rests(s: State, p: Proc) {
    p in s.supervisors && s.supervisors[p].phase.Resting?
  }

  lemma AsksAgain(s: State, p: Proc)
    requires s.entry.Some? && s.entry.value.proc == p && !s.entry.value.up && !s.closed && s.lock.Free?
    requires Rests(s, p) && s.supervisors[p].generation == s.entry.value.generation
    ensures var t := Next(Next(s, Retry(p)), Ensure(Some(p)));
            && t == s.(lock := Connecting(Some(p), None), supervisors := t.supervisors)
            && t.supervisors - {p} == s.supervisors - {p}
  {
  }

  /** Rested, it asks for the connection; when nobody else is connecting, the
      attempt begins, and if the process then started answers, the connection is
      up again with the next generation and a supervisor of its own in place of
      the one that asked. */
  lemma DownIsBroughtBack(steps: seq<Step>)
    requires RestedRun(steps)
    requires var s := Run(steps); s.entry.Some? && !s.entry.value.up && !s.closed && s.lock.Free?
    requires var s := Run(steps); Rests(s, s.entry.value.proc)
    ensures var s := Run(steps);
            var p := s.entry.value.proc;
            var t := Next(Next(Next(Next(s, Retry(p)), Ensure(Some(p))), Start), Connect);
            t == s.(entry := Some(Entry(s.next, true, s.entry.value.generation + 1)), next := s.next + 1,
                    alive := s.alive + {s.next}, recorded := s.recorded + {s.next},
                    supervisors := (s.supervisors - {p})[s.next := Supervisor(s.entry.value.generation + 1, Watching)])
  {
    RunKeepsGuarded(steps);
    AsksAgain(Run(steps), Run(steps).entry.value.proc);
  }

  /** How long a supervisor rests after so many failed attempts in a row. */
  function RestAfter(failures: nat): nat {
    if failures == 0 then 1 else if failures == 1 then 2 else if failures == 2 then 4 else if failures == 3 then 8
    else if failures == 4 then 16 else 30
  }

  /** An attempt that fails sends it to rest: twice as long as before, and at most
      30. */
  lemma FailureRestsLonger(s: State, p: Proc, failures: nat)
    requires s.lock == Connecting(Some(p), None) && !s.closed
    requires p in s.supervisors && s.supervisors[p].phase == Asking(RestAfter(failures))
    ensures var t := Next(s, GiveUp);
            t == s.(lock := Free,
                    supervisors := s.supervisors[p := s.supervisors[p].(phase := Resting(RestAfter(failures + 1)))])
  {
  }

  /** A supervisor whose connection is no longer the current one, or that wakes
      when all is closed, returns without asking. */
  lemma StaleReturns(s: State, p: Proc)
    requires p in s.supervisors && s.supervisors[p].phase.Resting?
    requires s.closed || s.entry.None? || s.entry.value.generation != s.supervisors[p].generation
    ensures Next(s, Retry(p)) == s.(supervisors := s.supervisors - {p})
  {
  }

  /** Asked for while it is up, the connection is used as it is; the asking
      supervisor, if any, returns. */
  lemma UpIsUsed(s: State, asker: Option<Proc>)
    requires MayEnsure(s, asker) && !s.closed && s.entry.Some? && s.entry.value.up
    ensures var t := Next(s, Ensure(asker));
            && t.lock.Free? && t.entry == s.entry && t.alive == s.alive
            && forall p :: p in t.supervisors <==> p in s.supervisors && asker != Some(p)
  {
  }
}
