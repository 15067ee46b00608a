/** The ssh connection of one remote workspace: who may start a process, who
    watches it, and when it is restarted. */
module ConnManager {
  import opened BrowserTypes

  const MIN_BACKOFF := 1
  const MAX_BACKOFF := 30

  type Proc = nat

  datatype Entry = Entry(proc: Proc, up: bool, generation: nat)

  /** What the watcher of a process does: wait for its exit, wait before the
      next attempt, or ask for a connection. */
  datatype Phase = Watching | Resting(backoff: nat) | Asking(backoff: nat)

  datatype Supervisor = Supervisor(generation: nat, phase: Phase)

  /** The workspace's lock: held while connecting, on behalf of a supervisor or
      of a caller, with the process on trial. */
  datatype Lock = Free | Connecting(asker: Option<Proc>, trial: Option<Proc>)

  /** Supervisors are known by their process; `recorded` are the processes that
      were ever an entry's. */
  datatype State = State(entry: Option<Entry>, closed: bool, lock: Lock, next: Proc, alive: set<Proc>,
                         recorded: set<Proc>, supervisors: map<Proc, Supervisor>)

  const INITIAL := State(None, false, Free, 0, {}, {}, map[])

  datatype Step =
    | Ensure(asker: Option<Proc>)
    | Start
    | TrialFails(again: bool)
    | GiveUp
    | Connect
    | Exit(proc: Proc)
    | Notice(proc: Proc)
    | Retry(proc: Proc)
    | Release
    | Close

  predicate IsCurrent(s: State, generation: nat) {
    s.entry.Some? && s.entry.value.generation == generation
  }

  function Doubled(backoff: nat): nat {
    if 2 * backoff < MAX_BACKOFF then 2 * backoff else MAX_BACKOFF
  }

  /** A supervisor's request succeeded, and it returns. */
  function Succeeded(s: State, asker: Option<Proc>): State {
    if asker.Some? then s.(lock := Free, supervisors := s.supervisors - {asker.value}) else s.(lock := Free)
  }

  /** A supervisor's request failed: it rests longer, or returns when all is
      closed. */
  function FailedFor(s: State, asker: Option<Proc>): State {
    if asker.None? || asker.value !in s.supervisors then s.(lock := Free)
    else
      var v := s.supervisors[asker.value];
      if s.closed || !v.phase.Asking? then s.(lock := Free, supervisors := s.supervisors - {asker.value})
      else s.(lock := Free, supervisors := s.supervisors[asker.value := v.(phase := Resting(Doubled(v.phase.backoff)))])
  }

  predicate MayEnsure(s: State, asker: Option<Proc>) {
    s.lock.Free? && (asker.Some? ==> asker.value in s.supervisors && s.supervisors[asker.value].phase.Asking?)
  }

  predicate OnTrial(s: State) {
    s.lock.Connecting? && s.lock.trial.Some?
  }

  function Next(s: State, step: Step): State {
    match step
    case Ensure(asker) =>
      if !MayEnsure(s, asker) then s
      else if s.closed then FailedFor(s, asker)
      else if s.entry.Some? && s.entry.value.up then Succeeded(s, asker)
      else s.(lock := Connecting(asker, None))
    case Start =>
      if !s.lock.Connecting? || s.lock.trial.Some? then s
      else s.(lock := s.lock.(trial := Some(s.next)), next := s.next + 1, alive := s.alive + {s.next})
    case TrialFails(again) =>
      if !OnTrial(s) then s
      else
        var t := s.(alive := s.alive - {s.lock.trial.value});
        if again then t.(lock := t.lock.(trial := None)) else FailedFor(t, s.lock.asker)
    case GiveUp =>
      if !s.lock.Connecting? || s.lock.trial.Some? then s else FailedFor(s, s.lock.asker)
    case Connect =>
      if !OnTrial(s) then s
      else
        var p := s.lock.trial.value;
        if s.closed then FailedFor(s.(alive := s.alive - {p}), s.lock.asker)
        else
          var gen := if s.entry.Some? then s.entry.value.generation + 1 else 1;
          var t := Succeeded(s, s.lock.asker);
          t.(entry := Some(Entry(p, true, gen)), recorded := t.recorded + {p},
             supervisors := t.supervisors[p := Supervisor(gen, Watching)])
    case Exit(p) => s.(alive := s.alive - {p})
    case Notice(p) =>
      if p !in s.supervisors || !s.supervisors[p].phase.Watching? || p in s.alive then s
      else
        var v := s.supervisors[p];
        var t := s.(supervisors := s.supervisors[p := v.(phase := Resting(MIN_BACKOFF))]);
        if IsCurrent(s, v.generation) then t.(entry := Some(s.entry.value.(up := false))) else t
    case Retry(p) =>
      if p !in s.supervisors || !s.supervisors[p].phase.Resting? then s
      else
        var v := s.supervisors[p];
        if s.closed || !IsCurrent(s, v.generation) then s.(supervisors := s.supervisors - {p})
        else s.(supervisors := s.supervisors[p := v.(phase := Asking(v.phase.backoff))])
    case Release =>
      if !s.lock.Free? then s
      else if s.entry.None? then s
      else s.(entry := None, alive := s.alive - {s.entry.value.proc})
    case Close => s.(closed := true)
  }

  function Run(steps: seq<Step>): State {
    if steps == [] then INITIAL else Next(Run(steps[..|steps| - 1]), steps[|steps| - 1])
  }

  // --- what holds in every run -------------------------------------------------------

  /** A workspace that was released is asked for again only once every
      supervisor of its old entry has returned. */
  predicate Rested(s: State, step: Step) {
    step.Ensure? && s.entry.None? ==> s.supervisors == map[]
  }

  predicate RestedRun(steps: seq<Step>) {
    steps == [] || (RestedRun(steps[..|steps| - 1]) && Rested(Run(steps[..|steps| - 1]), steps[|steps| - 1]))
  }

  /** Every process still running is on trial or was recorded; a recorded one
      that still runs is the entry's; and an entry that is down has none. */
  ghost predicate Processes(s: State) {
    && (forall p :: p in s.alive ==> p < s.next && (p in s.recorded || (OnTrial(s) && s.lock.trial.value == p)))
    && (OnTrial(s) ==> s.lock.trial.value !in s.recorded && s.lock.trial.value < s.next)
    && (forall p :: p in s.recorded ==> p < s.next)
    && (forall p :: p in s.recorded && p in s.alive ==> s.entry.Some? && s.entry.value.proc == p)
    && (s.entry.Some? && !s.entry.value.up ==> s.entry.value.proc !in s.alive)
    && (s.entry.Some? ==> s.entry.value.proc in s.recorded)
  }

  /** No supervisor is ahead of the entry, and only the entry's own process has
      one of the entry's generation. */
  ghost predicate Supervised(s: State) {
    && (forall p :: p in s.supervisors ==> p in s.recorded && s.supervisors[p].generation > 0)
    && (s.entry.Some? ==> forall p :: p in s.supervisors ==>
          s.supervisors[p].generation <= s.entry.value.generation
          && (s.supervisors[p].generation == s.entry.value.generation ==> p == s.entry.value.proc))
    && (s.lock.Connecting? && s.entry.None? ==> s.supervisors == map[])
    && (s.lock.Connecting? && s.entry.Some? ==> !s.entry.value.up)
    && (s.lock.Connecting? && s.lock.asker.Some? ==>
          s.lock.asker.value in s.supervisors && s.supervisors[s.lock.asker.value].phase.Asking?)
  }

  ghost predicate PatientlyBacksOff(s: State) {
    forall p :: p in s.supervisors && !s.supervisors[p].phase.Watching? ==>
      MIN_BACKOFF <= s.supervisors[p].phase.backoff <= MAX_BACKOFF
  }

  ghost predicate Invariant(s: State) {
    Processes(s) && Supervised(s) && PatientlyBacksOff(s)
  }

  lemma ConnectKeepsInvariant(s: State)
    requires Processes(s) && Supervised(s)
    ensures Processes(Next(s, Connect)) && Supervised(Next(s, Connect))
  {
  }

  lemma TrialKeepsInvariant(s: State, again: bool)
    requires Processes(s) && Supervised(s)
    ensures Processes(Next(s, TrialFails(again))) && Supervised(Next(s, TrialFails(again)))
  {
  }

  lemma NoticeKeepsInvariant(s: State, p: Proc)
    requires Processes(s) && Supervised(s)
    ensures Processes(Next(s, Notice(p))) && Supervised(Next(s, Notice(p)))
  {
  }

  lemma EnsureKeepsInvariant(s: State, asker: Option<Proc>)
    requires Processes(s) && Supervised(s) && Rested(s, Ensure(asker))
    ensures Processes(Next(s, Ensure(asker))) && Supervised(Next(s, Ensure(asker)))
  {
  }

  lemma OtherKeepsInvariant(s: State, step: Step)
    requires Processes(s) && Supervised(s)
    requires (step.Start? || step.GiveUp? || step.Exit? || step.Retry? || step.Release? || step.Close?)
    ensures Processes(Next(s, step)) && Supervised(Next(s, step))
  {
  }

  lemma StepKeepsInvariant(s: State, step: Step)
    requires Invariant(s) && Rested(s, step)
    ensures Invariant(Next(s, step))
  {
    StepKeepsBackoff(s, step);
    match step
    case Connect => ConnectKeepsInvariant(s);
    case TrialFails(again) => TrialKeepsInvariant(s, again);
    case Notice(p) => NoticeKeepsInvariant(s, p);
    case Ensure(asker) => EnsureKeepsInvariant(s, asker);
    case _ => OtherKeepsInvariant(s, step);
  }

  lemma StepKeepsBackoff(s: State, step: Step)
    requires PatientlyBacksOff(s)
    ensures PatientlyBacksOff(Next(s, step))
  {
  }

  lemma {:induction false} RunKeepsInvariant(steps: seq<Step>)
    requires RestedRun(steps)
    ensures Invariant(Run(steps))
  {
    if steps != [] {
      var init, step := steps[..|steps| - 1], steps[|steps| - 1];
      RunKeepsInvariant(init);
      StepKeepsInvariant(Run(init), step);
    }
  }

  /** In every such run at most one recorded process is running, the entry's
      own, and nothing runs that is neither recorded nor on trial: processes of
      failed attempts are gone. */
  lemma AtMostOneRuns(steps: seq<Step>)
    requires RestedRun(steps)
    ensures var s := Run(steps);
            && |s.recorded * s.alive| <= 1
            && (s.recorded * s.alive != {} ==> s.entry.Some? && s.recorded * s.alive == {s.entry.value.proc})
            && (s.lock.Free? ==> s.alive <= s.recorded)
  {
    RunKeepsInvariant(steps);
    var s := Run(steps);
    if s.recorded * s.alive != {} {
      assert s.recorded * s.alive == {s.entry.value.proc};
    }
  }

  /** A supervisor marks the connection down only when the connection's own
      process has exited. */
  lemma OnlyTheCurrentMarksDown(steps: seq<Step>, step: Step)
    requires RestedRun(steps) && step.Notice?
    ensures var s := Run(steps);
            Next(s, step).entry != s.entry ==> s.entry.value.proc == step.proc && step.proc !in s.alive
  {
    RunKeepsInvariant(steps);
  }

  /** While an entry lives its generation never falls, and a new process gets a
      higher one. */
  lemma GenerationsGrow(s: State, step: Step)
    requires s.entry.Some? && Next(s, step).entry.Some?
    ensures var e, e' := s.entry.value, Next(s, step).entry.value;
            e.generation <= e'.generation && (e'.proc != e.proc ==> e.generation < e'.generation)
  {
  }

  const CONNECTING := [Ensure(None), Start, Connect]

  lemma OneStep(steps: seq<Step>, step: Step)
    ensures Run(steps + [step]) == Next(Run(steps), step)
    ensures RestedRun(steps + [step]) <==> RestedRun(steps) && Rested(Run(steps), step)
  {
    assert (steps + [step])[..|steps|] == steps;
  }

  lemma ConnectedBy(steps: seq<Step>)
    requires var s := Run(steps); s.lock.Free? && !s.closed && (s.entry.Some? ==> !s.entry.value.up)
    ensures var s := Run(steps);
            var gen := if s.entry.Some? then s.entry.value.generation + 1 else 1;
            Run(steps + CONNECTING) ==
            s.(entry := Some(Entry(s.next, true, gen)), next := s.next + 1, alive := s.alive + {s.next},
               recorded := s.recorded + {s.next}, supervisors := s.supervisors[s.next := Supervisor(gen, Watching)])
    ensures RestedRun(steps + CONNECTING) ==> Rested(Run(steps), Ensure(None))
  {
    OneStep(steps, Ensure(None));
    OneStep(steps + [Ensure(None)], Start);
    OneStep(steps + [Ensure(None)] + [Start], Connect);
    assert steps + CONNECTING == steps + [Ensure(None)] + [Start] + [Connect];
  }

  const RELEASED := CONNECTING + [Release]
  const STALE := RELEASED + CONNECTING + [Notice(0)] + CONNECTING

  lemma AfterRelease()
    ensures Run(RELEASED) == State(None, false, Free, 1, {}, {0}, map[0 := Supervisor(1, Watching)])
  {
    ConnectedBy([]);
    assert [] + CONNECTING == CONNECTING;
    OneStep(CONNECTING, Release);
  }

  lemma AfterStaleNotice()
    ensures Run(RELEASED + CONNECTING + [Notice(0)]) ==
            State(Some(Entry(1, false, 1)), false, Free, 2, {1}, {0, 1},
                  map[0 := Supervisor(1, Resting(MIN_BACKOFF)), 1 := Supervisor(1, Watching)])
  {
    AfterRelease();
    ConnectedBy(RELEASED);
    OneStep(RELEASED + CONNECTING, Notice(0));
  }

  /** Asked for again too soon after a release, the old supervisor, whose
      generation number is used again, marks the new connection down although
      its process runs, and a second process is started beside it. */
  lemma TooSoonStartsTwo()
    ensures Run(STALE).recorded * Run(STALE).alive == {1, 2} && !Rested(Run(RELEASED), Ensure(None))
  {
    AfterRelease();
    assert 0 in Run(RELEASED).supervisors;
    AfterStaleNotice();
    ConnectedBy(RELEASED + CONNECTING + [Notice(0)]);
  }

  // --- the manager ------------------------------------------------------------------

  /** The connections of one workspace. Each method is a stretch of the code
      that runs under one lock; what ssh and the follower do is the caller's
      choice. */
  class Manager {
    var entry: Option<Entry>
    var closed: bool
    var lock: Lock
    var next: Proc
    var alive: set<Proc>
    ghost var recorded: set<Proc>
    var supervisors: map<Proc, Supervisor>

    ghost function View(): State
      reads this
    {
      State(entry, closed, lock, next, alive, recorded, supervisors)
    }

    constructor ()
      ensures View() == INITIAL
    {
      entry, closed, lock, next, alive, recorded, supervisors := None, false, Free, 0, {}, {}, map[];
    }

    /** Asks for the connection: a live one is used, else connecting begins. */
    method AskFor(asker: Option<Proc>)
      requires MayEnsure(View(), asker)
      modifies this
      ensures View() == Next(old(View()), Ensure(asker))
    {
      if closed {
        Fail(asker);
        return;
      }
      if entry.Some? && entry.value.up {
        Succeed(asker);
        return;
      }
      lock := Connecting(asker, None);
    }

    method Fail(asker: Option<Proc>)
      modifies this`lock, this`supervisors
      ensures View() == FailedFor(old(View()), asker)
    {
      lock := Free;
      if asker.None? || asker.value !in supervisors {
        return;
      }
      var v := supervisors[asker.value];
      if closed || !v.phase.Asking? {
        supervisors := supervisors - {asker.value};
      } else {
        supervisors := supervisors[asker.value := v.(phase := Resting(Doubled(v.phase.backoff)))];
      }
    }

    method Succeed(asker: Option<Proc>)
      modifies this`lock, this`supervisors
      ensures View() == Succeeded(old(View()), asker)
    {
      lock := Free;
      if asker.Some? {
        supervisors := supervisors - {asker.value};
      }
    }

    method StartTrial()
      requires lock.Connecting? && lock.trial.None?
      modifies this
      ensures View() == Next(old(View()), Start)
    {
      lock := lock.(trial := Some(next));
      alive, next := alive + {next}, next + 1;
    }

    /** The follower could not be reached through the process: it is killed. */
    method FailTrial(again: bool)
      requires OnTrial(View())
      modifies this
      ensures View() == Next(old(View()), TrialFails(again))
    {
      alive := alive - {lock.trial.value};
      if again {
        lock := lock.(trial := None);
      } else {
        Fail(lock.asker);
      }
    }

    /** The follower answers: the process becomes the entry's, with a watcher,
        unless everything was closed meanwhile. */
    method Finish()
      requires OnTrial(View())
      modifies this
      ensures View() == Next(old(View()), Connect)
    {
      var p := lock.trial.value;
      if closed {
        alive := alive - {p};
        Fail(lock.asker);
        return;
      }
      var gen := if entry.Some? then entry.value.generation + 1 else 1;
      Succeed(lock.asker);
      entry := Some(Entry(p, true, gen));
      recorded := recorded + {p};
      supervisors := supervisors[p := Supervisor(gen, Watching)];
    }

    /** A watcher sees its process gone. */
    method NoticeExit(p: Proc)
      requires p in supervisors && supervisors[p].phase.Watching? && p !in alive
      modifies this
      ensures View() == Next(old(View()), Notice(p))
    {
      var gen := supervisors[p].generation;
      if entry.Some? && entry.value.generation == gen {
        entry := Some(entry.value.(up := false));
      }
      supervisors := supervisors[p := Supervisor(gen, Resting(MIN_BACKOFF))];
    }

    /** A watcher has rested: it asks again, unless its connection is no longer
        the current one. */
    method RetryAfterRest(p: Proc)
      requires p in supervisors && supervisors[p].phase.Resting?
      modifies this
      ensures View() == Next(old(View()), Retry(p))
    {
      var v := supervisors[p];
      if closed || entry.None? || entry.value.generation != v.generation {
        supervisors := supervisors - {p};
      } else {
        supervisors := supervisors[p := v.(phase := Asking(v.phase.backoff))];
      }
    }

    method Drop()
      requires lock.Free?
      modifies this
      ensures View() == Next(old(View()), Release)
    {
      if entry.Some? {
        alive := alive - {entry.value.proc};
        entry := None;
      }
    }
  }
}
