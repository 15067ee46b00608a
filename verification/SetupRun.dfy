/** Running a setup plan in waves: every ready step starts, the wave ends when
    its foreground steps have finished, and background steps are launched and
    left behind. */
module SetupRun {
  import opened BrowserTypes
  import opened SetupPlan

  datatype Status = Pending | Running | Done | Failed

  datatype Failure = Failure(critical: bool, message: string)

  /** What executing a step does: warnings it records on the way, then success
      or failure. Any step may do anything. */
  datatype Outcome = Outcome(notes: seq<string>, failure: Option<Failure>)

  datatype Event = Started(step: nat) | Finished(step: nat)

  predicate Terminal(s: Status) {
    s == Done || s == Failed
  }

  predicate Ready(defs: seq<StepDef>, status: seq<Status>, i: nat)
    requires |status| == |defs| && i < |defs|
  {
    status[i] == Pending &&
    if defs[i].kind == CreateSessionDir then true
    else if defs[i].kind == ApplyClaude && defs[i].dependsOn == None then
      forall o :: 0 <= o < |defs| && defs[o].workspace.Some? && !defs[o].background ==> Terminal(status[o])
    else if defs[i].dependsOn.Some? then
      defs[i].dependsOn.value < |defs| && Terminal(status[defs[i].dependsOn.value])
    else false
  }

  function CountPending(status: seq<Status>): nat {
    if status == [] then 0 else CountPending(status[..|status| - 1]) + if status[|status| - 1] == Pending then 1 else 0
  }

  lemma {:induction false} FewerPending(status: seq<Status>, i: nat, s: Status)
    requires i < |status| && s != Pending
    ensures CountPending(status[i := s]) == CountPending(status) - if status[i] == Pending then 1 else 0
  {
    var n := |status| - 1;
    if i < n {
      assert status[i := s][..n] == status[..n][i := s];
      FewerPending(status[..n], i, s);
    } else {
      assert status[i := s][..n] == status[..n];
    }
  }

  /** Other steps' progress never makes a ready step unready. */
  lemma ReadyPersists(defs: seq<StepDef>, status: seq<Status>, j: nat, i: nat, s: Status)
    requires |status| == |defs| && j < |defs| && i < |defs| && Ready(defs, status, j) && i != j
    requires !Terminal(status[i])
    ensures Ready(defs, status[i := s], j)
  {}

  // --- what the event log of a run shows -----------------------------------

  /** A step may start only after what it waits for has finished. */
  ghost predicate StartAllowed(defs: seq<StepDef>, past: seq<Event>, i: nat) {
    i < |defs| && Started(i) !in past &&
    if defs[i].kind == CreateSessionDir then true
    else if defs[i].kind == ApplyClaude && defs[i].dependsOn == None then
      forall o :: 0 <= o < |defs| && defs[o].workspace.Some? && !defs[o].background ==> Finished(o) in past
    else defs[i].dependsOn.Some? && Finished(defs[i].dependsOn.value) in past
  }

  ghost predicate FinishAllowed(defs: seq<StepDef>, past: seq<Event>, i: nat) {
    i < |defs| && !defs[i].background && Started(i) in past && Finished(i) !in past
  }

  ghost predicate EventAllowed(defs: seq<StepDef>, past: seq<Event>, e: Event) {
    match e
    case Started(i) => StartAllowed(defs, past, i)
    case Finished(i) => FinishAllowed(defs, past, i)
  }

  ghost predicate LogAllowed(defs: seq<StepDef>, log: seq<Event>) {
    log != [] ==> LogAllowed(defs, log[..|log| - 1]) && EventAllowed(defs, log[..|log| - 1], log[|log| - 1])
  }

  lemma {:induction false} AllowedAt(defs: seq<StepDef>, log: seq<Event>, p: nat)
    requires LogAllowed(defs, log) && p < |log|
    ensures EventAllowed(defs, log[..p], log[p])
  {
    var n := |log| - 1;
    if p < n {
      AllowedAt(defs, log[..n], p);
      assert log[..n][..p] == log[..p];
    }
  }

  ghost predicate StartsMatch(status: seq<Status>, log: seq<Event>) {
    forall i :: 0 <= i < |status| ==> (status[i] != Pending <==> Started(i) in log)
  }

  ghost predicate FinishesMatch(status: seq<Status>, log: seq<Event>) {
    forall i :: 0 <= i < |status| ==> (Terminal(status[i]) <==> Finished(i) in log)
  }

  ghost predicate EndsMatch(outcome: nat -> Outcome, status: seq<Status>) {
    forall i :: 0 <= i < |status| && Terminal(status[i]) ==> (status[i] == Failed <==> outcome(i).failure.Some?)
  }

  /** The statuses are what the log says, and finished steps ended as their
      outcome says. */
  ghost predicate Consistent(defs: seq<StepDef>, outcome: nat -> Outcome, status: seq<Status>, log: seq<Event>) {
    && |status| == |defs|
    && LogAllowed(defs, log)
    && StartsMatch(status, log)
    && FinishesMatch(status, log)
    && EndsMatch(outcome, status)
  }

  /** No foreground step is still running. */
  ghost predicate Settled(defs: seq<StepDef>, status: seq<Status>)
    requires |status| == |defs|
  {
    forall i :: 0 <= i < |defs| && !defs[i].background ==> status[i] != Running
  }

  /** Warnings a finished step leaves: its notes, and its own failure unless
      that failure broke the setup. */
  function Messages(o: Outcome): seq<string> {
    if o.failure.Some? && !o.failure.value.critical then o.notes + [o.failure.value.message] else o.notes
  }

  ghost function AllMessages(outcome: nat -> Outcome, status: seq<Status>): multiset<string> {
    if status == [] then multiset{}
    else
      var n := |status| - 1;
      AllMessages(outcome, status[..n]) + MessagesAt(outcome, status[n], n)
  }

  ghost function MessagesAt(outcome: nat -> Outcome, s: Status, i: nat): multiset<string> {
    if Terminal(s) then multiset(Messages(outcome(i))) else multiset{}
  }

  lemma {:induction false} MessagesAfterFinish(outcome: nat -> Outcome, status: seq<Status>, i: nat, s: Status)
    requires i < |status| && !Terminal(status[i])
    ensures AllMessages(outcome, status[i := s]) == AllMessages(outcome, status) + MessagesAt(outcome, s, i)
  {
    var init, last := status[..|status| - 1], status[|status| - 1];
    UpdatedParts(status, i, s);
    if i < |init| {
      MessagesAfterFinish(outcome, init, i, s);
      MessagesBefore(outcome, init, init[i := s], last, MessagesAt(outcome, s, i));
    } else {
      MessagesLast(outcome, init, last, s);
    }
  }

  lemma MessagesBefore(outcome: nat -> Outcome, a: seq<Status>, b: seq<Status>, last: Status, more: multiset<string>)
    requires |a| == |b| && AllMessages(outcome, b) == AllMessages(outcome, a) + more
    ensures AllMessages(outcome, b + [last]) == AllMessages(outcome, a + [last]) + more
  {
    MessagesOfMore(outcome, a, last);
    MessagesOfMore(outcome, b, last);
    AddedBefore(AllMessages(outcome, a), AllMessages(outcome, b), AllMessages(outcome, a + [last]),
                AllMessages(outcome, b + [last]), more, MessagesAt(outcome, last, |a|));
  }

  lemma MessagesLast(outcome: nat -> Outcome, a: seq<Status>, last: Status, s: Status)
    requires !Terminal(last)
    ensures AllMessages(outcome, a + [s]) == AllMessages(outcome, a + [last]) + MessagesAt(outcome, s, |a|)
  {
    MessagesOfMore(outcome, a, last);
    MessagesOfMore(outcome, a, s);
    AddedLast(AllMessages(outcome, a), AllMessages(outcome, a + [last]), AllMessages(outcome, a + [s]),
              MessagesAt(outcome, s, |a|), MessagesAt(outcome, last, |a|));
  }

  lemma AddedLast(a: multiset<string>, c: multiset<string>, d: multiset<string>, more: multiset<string>,
                  none: multiset<string>)
    requires c == a + none && d == a + more && none == multiset{}
    ensures d == c + more
  {
  }

  lemma UpdatedParts(status: seq<Status>, i: nat, s: Status)
    requires i < |status|
    ensures var init, last := status[..|status| - 1], status[|status| - 1];
            && status == init + [last]
            && status[i := s] == if i < |init| then init[i := s] + [last] else init + [s]
  {
  }

  lemma MessagesOfMore(outcome: nat -> Outcome, status: seq<Status>, s: Status)
    ensures AllMessages(outcome, status + [s]) == AllMessages(outcome, status) + MessagesAt(outcome, s, |status|)
  {
    assert (status + [s])[..|status|] == status;
  }

  lemma AddedBefore(a: multiset<string>, b: multiset<string>, c: multiset<string>, d: multiset<string>,
                    more: multiset<string>, last: multiset<string>)
    requires b == a + more && c == a + last && d == b + last
    ensures d == c + more
  {
  }

  /** Step `i` has finished and left the warning: one it noted on the way, or the
      message of a failure that did not break the setup. */
  ghost predicate LeftBy(outcome: nat -> Outcome, status: seq<Status>, m: string, i: nat) {
    && i < |status| && (status[i] == Done || status[i] == Failed)
    && (|| m in outcome(i).notes
        || (exists f :: outcome(i).failure == Some(f) && !f.critical && f.message == m))
  }

  lemma {:induction false} WarnedIff(outcome: nat -> Outcome, status: seq<Status>, m: string)
    ensures m in AllMessages(outcome, status) <==> Left(outcome, status, m)
  {
    if status != [] {
      WarnedIff(outcome, status[..|status| - 1], m);
      LeftByLast(outcome, status, m);
      LeftByMore(outcome, status, m);
    }
  }

  ghost predicate Left(outcome: nat -> Outcome, status: seq<Status>, m: string) {
    exists i :: LeftBy(outcome, status, m, i)
  }

  lemma LeftByMore(outcome: nat -> Outcome, status: seq<Status>, m: string)
    requires status != []
    ensures Left(outcome, status, m) <==>
            Left(outcome, status[..|status| - 1], m) || LeftBy(outcome, status, m, |status| - 1)
  {
    var init := status[..|status| - 1];
    if i: nat :| LeftBy(outcome, status, m, i) {
      assert i < |init| ==> LeftBy(outcome, init, m, i);
    }
    if i: nat :| LeftBy(outcome, init, m, i) {
      assert LeftBy(outcome, status, m, i);
    }
  }

  lemma LeftByLast(outcome: nat -> Outcome, status: seq<Status>, m: string)
    requires status != []
    ensures m in MessagesAt(outcome, status[|status| - 1], |status| - 1) <==>
            LeftBy(outcome, status, m, |status| - 1)
  {
  }

  /** The warnings of a setup are those its finished steps left. */
  lemma WarningsAreLeft(defs: seq<StepDef>, outcome: nat -> Outcome, status: seq<Status>, warnings: seq<string>,
                        broken: Option<nat>, log: seq<Event>, m: string)
    requires Fits(defs, outcome, status, warnings, broken, log)
    ensures m in warnings <==> Left(outcome, status, m)
  {
    WarnedIff(outcome, status, m);
    assert m in warnings <==> m in multiset(warnings);
  }

  ghost predicate CriticalAt(outcome: nat -> Outcome, status: seq<Status>, i: nat) {
    i < |status| && status[i] == Failed && outcome(i).failure.Some? && outcome(i).failure.value.critical
  }

  /** `broken` names a critical failure exactly when there was one. */
  ghost predicate BrokenMatches(outcome: nat -> Outcome, status: seq<Status>, broken: Option<nat>) {
    if broken.Some? then CriticalAt(outcome, status, broken.value)
    else forall i :: 0 <= i < |status| ==> !CriticalAt(outcome, status, i)
  }

  lemma StartKeepsConsistent(defs: seq<StepDef>, outcome: nat -> Outcome, status: seq<Status>, log: seq<Event>, i: nat)
    requires Consistent(defs, outcome, status, log) && i < |defs| && Ready(defs, status, i)
    ensures Consistent(defs, outcome, status[i := Running], log + [Started(i)])
  {
    ReadyMayStart(defs, status, log, i);
    ExtendLog(defs, log, Started(i));
    Recorded(status, log, i, Running, Started(i));
  }

  lemma ReadyMayStart(defs: seq<StepDef>, status: seq<Status>, log: seq<Event>, i: nat)
    requires |status| == |defs| && i < |defs| && Ready(defs, status, i)
    requires StartsMatch(status, log) && FinishesMatch(status, log)
    ensures StartAllowed(defs, log, i)
  {}

  lemma Recorded(status: seq<Status>, log: seq<Event>, i: nat, s: Status, e: Event)
    requires i < |status| && StartsMatch(status, log) && FinishesMatch(status, log)
    requires || (e == Started(i) && s == Running && status[i] == Pending)
             || (e == Finished(i) && Terminal(s) && status[i] == Running)
    ensures StartsMatch(status[i := s], log + [e]) && FinishesMatch(status[i := s], log + [e])
  {
    assert forall x :: x in log + [e] <==> x in log || x == e;
  }

  lemma FinishKeepsConsistent(defs: seq<StepDef>, outcome: nat -> Outcome, status: seq<Status>, log: seq<Event>, i: nat,
                              s: Status)
    requires Consistent(defs, outcome, status, log) && i < |defs| && !defs[i].background && status[i] == Running
    requires s == if outcome(i).failure.Some? then Failed else Done
    ensures Consistent(defs, outcome, status[i := s], log + [Finished(i)])
  {
    ExtendLog(defs, log, Finished(i));
    Recorded(status, log, i, s, Finished(i));
  }

  lemma StartKeepsBroken(outcome: nat -> Outcome, status: seq<Status>, broken: Option<nat>, i: nat)
    requires BrokenMatches(outcome, status, broken) && i < |status| && status[i] == Pending
    ensures BrokenMatches(outcome, status[i := Running], broken)
  {
    var after := status[i := Running];
    if broken.None? {
      forall k | 0 <= k < |after| ensures !CriticalAt(outcome, after, k) {
        assert !CriticalAt(outcome, status, k);
      }
    }
  }

  lemma FinishSetsBroken(outcome: nat -> Outcome, status: seq<Status>, broken: Option<nat>, i: nat, s: Status)
    requires BrokenMatches(outcome, status, broken) && i < |status| && status[i] == Running
    requires s == if outcome(i).failure.Some? then Failed else Done
    ensures BrokenMatches(outcome, status[i := s],
              if broken.None? && outcome(i).failure.Some? && outcome(i).failure.value.critical then Some(i) else broken)
  {
    var after := status[i := s];
    if broken.None? && !(outcome(i).failure.Some? && outcome(i).failure.value.critical) {
      forall k | 0 <= k < |after| ensures !CriticalAt(outcome, after, k) {
        assert !CriticalAt(outcome, status, k);
      }
    }
  }

  /** The state of an execution fits its log. */
  ghost predicate Fits(defs: seq<StepDef>, outcome: nat -> Outcome, status: seq<Status>, warnings: seq<string>,
                       broken: Option<nat>, log: seq<Event>)
  {
    && Consistent(defs, outcome, status, log)
    && multiset(warnings) == AllMessages(outcome, status)
    && BrokenMatches(outcome, status, broken)
  }

  lemma StartFits(defs: seq<StepDef>, outcome: nat -> Outcome, status: seq<Status>, warnings: seq<string>,
                  broken: Option<nat>, log: seq<Event>, i: nat)
    requires Fits(defs, outcome, status, warnings, broken, log) && i < |defs| && Ready(defs, status, i)
    ensures Fits(defs, outcome, status[i := Running], warnings, broken, log + [Started(i)])
  {
    MessagesAfterFinish(outcome, status, i, Running);
    StartKeepsConsistent(defs, outcome, status, log, i);
    StartKeepsBroken(outcome, status, broken, i);
  }

  lemma FinishFits(defs: seq<StepDef>, outcome: nat -> Outcome, status: seq<Status>, warnings: seq<string>,
                   broken: Option<nat>, log: seq<Event>, i: nat, s: Status)
    requires Fits(defs, outcome, status, warnings, broken, log)
    requires i < |defs| && !defs[i].background && status[i] == Running
    requires s == if outcome(i).failure.Some? then Failed else Done
    ensures Fits(defs, outcome, status[i := s], warnings + Messages(outcome(i)),
              if broken.None? && outcome(i).failure.Some? && outcome(i).failure.value.critical then Some(i) else broken,
              log + [Finished(i)])
  {
    MessagesAfterFinish(outcome, status, i, s);
    FinishKeepsConsistent(defs, outcome, status, log, i, s);
    FinishSetsBroken(outcome, status, broken, i, s);
  }

  // --- waves ---------------------------------------------------------------

  /** Position inside a wave: the first `next` ready steps have started, and
      `running` are the foreground steps in progress. */
  ghost predicate WaveAt(defs: seq<StepDef>, status: seq<Status>, ready: seq<nat>, next: nat, running: set<nat>) {
    && |status| == |defs| && next <= |ready|
    && (forall k, l :: 0 <= k < l < |ready| ==> ready[k] != ready[l])
    && (forall k :: 0 <= k < |ready| ==> ready[k] < |defs|)
    && (forall k :: 0 <= k < next ==> status[ready[k]] != Pending)
    && (forall k :: next <= k < |ready| ==> Ready(defs, status, ready[k]))
    && (forall i: nat :: i in running <==> i < |defs| && !defs[i].background && status[i] == Running)
  }

  lemma StartKeepsWave(defs: seq<StepDef>, status: seq<Status>, ready: seq<nat>, next: nat, running: set<nat>)
    requires WaveAt(defs, status, ready, next, running) && next < |ready|
    ensures var i := ready[next];
            WaveAt(defs, status[i := Running], ready, next + 1, if defs[i].background then running else running + {i})
  {
    forall k | next < k < |ready| ensures Ready(defs, status[ready[next] := Running], ready[k]) {
      ReadyPersists(defs, status, ready[k], ready[next], Running);
    }
  }

  lemma FinishKeepsWave(defs: seq<StepDef>, status: seq<Status>, ready: seq<nat>, next: nat, running: set<nat>, i: nat,
                        s: Status)
    requires WaveAt(defs, status, ready, next, running) && i in running && Terminal(s)
    ensures WaveAt(defs, status[i := s], ready, next, running - {i})
  {
    forall k | next <= k < |ready| ensures Ready(defs, status[i := s], ready[k]) {
      ReadyPersists(defs, status, ready[k], i, s);
    }
  }

  // --- the execution -------------------------------------------------------

  class SetupExecution {
    const defs: seq<StepDef>
    const outcome: nat -> Outcome
    var status: seq<Status>
    var warnings: seq<string>
    var broken: Option<nat>
    ghost var log: seq<Event>

    ghost predicate Valid()
      reads this
    {
      Fits(defs, outcome, status, warnings, broken, log)
    }

    constructor (defs: seq<StepDef>, outcome: nat -> Outcome)
      ensures this.defs == defs && this.outcome == outcome
      ensures Valid() && Settled(defs, status) && broken == None && log == []
      ensures forall i :: 0 <= i < |defs| ==> status[i] == Pending
    {
      this.defs := defs;
      this.outcome := outcome;
      this.status := seq(|defs|, i => Pending);
      this.warnings := [];
      this.broken := None;
      this.log := [];
      new;
      NothingFinished(outcome, status);
    }

    method CollectReady() returns (ready: seq<nat>)
      requires |status| == |defs|
      ensures forall k, l :: 0 <= k < l < |ready| ==> ready[k] != ready[l]
      ensures forall k :: 0 <= k < |ready| ==> ready[k] < |defs| && Ready(defs, status, ready[k])
      ensures forall i: nat :: i < |defs| && Ready(defs, status, i) ==> i in ready
    {
      ready := [];
      for i := 0 to |defs|
        invariant forall k, l :: 0 <= k < l < |ready| ==> ready[k] != ready[l]
        invariant forall k :: 0 <= k < |ready| ==> ready[k] < i && Ready(defs, status, ready[k])
        invariant forall j: nat :: j < i && Ready(defs, status, j) ==> j in ready
      {
        if Ready(defs, status, i) {
          ready := ready + [i];
        }
      }
    }

    method Start(i: nat)
      requires Valid() && i < |defs| && Ready(defs, status, i)
      modifies this
      ensures Valid() && status == old(status)[i := Running] && log == old(log) + [Started(i)]
      ensures broken == old(broken) && warnings == old(warnings)
      ensures CountPending(status) == CountPending(old(status)) - 1
    {
      FewerPending(status, i, Running);
      StartFits(defs, outcome, status, warnings, broken, log, i);
      status := status[i := Running];
      log := log + [Started(i)];
    }

    method Finish(i: nat)
      requires Valid() && i < |defs| && !defs[i].background && status[i] == Running
      modifies this
      ensures Valid() && log == old(log) + [Finished(i)]
      ensures status == old(status)[i := if outcome(i).failure.Some? then Failed else Done]
      ensures broken ==
              if old(broken).None? && outcome(i).failure.Some? && outcome(i).failure.value.critical then Some(i)
              else old(broken)
      ensures CountPending(status) == CountPending(old(status))
    {
      var o := outcome(i);
      var s := if o.failure.Some? then Failed else Done;
      FewerPending(status, i, s);
      FinishFits(defs, outcome, status, warnings, broken, log, i, s);
      var added := o.notes;
      if o.failure.Some? {
        if o.failure.value.critical {
          broken := if broken.None? then Some(i) else broken;
        } else {
          added := added + [o.failure.value.message];
        }
      }
      warnings := warnings + added;
      status := status[i := s];
      log := log + [Finished(i)];
    }

    ghost predicate InWave(ready: seq<nat>, next: nat, running: set<nat>)
      reads this
    {
      WaveAt(defs, status, ready, next, running)
    }

    method StartNext(ready: seq<nat>, next: nat, running: set<nat>) returns (running': set<nat>)
      requires Valid() && InWave(ready, next, running) && next < |ready|
      modifies this
      ensures Valid() && InWave(ready, next + 1, running')
      ensures CountPending(status) == CountPending(old(status)) - 1
    {
      var i := ready[next];
      StartKeepsWave(defs, status, ready, next, running);
      Start(i);
      running' := if defs[i].background then running else running + {i};
    }

    method FinishOne(ready: seq<nat>, next: nat, running: set<nat>, i: nat)
      requires Valid() && InWave(ready, next, running) && i in running && i < |defs|
      modifies this
      ensures Valid() && InWave(ready, next, running - {i})
      ensures CountPending(status) == CountPending(old(status))
    {
      FinishKeepsWave(defs, status, ready, next, running, i, if outcome(i).failure.Some? then Failed else Done);
      Finish(i);
    }

    /** One wave: starts and finishes interleave in any order. */
    method RunWave(ready: seq<nat>)
      requires Valid() && Settled(defs, status)
      requires InWave(ready, 0, {})
      modifies this
      ensures Valid() && Settled(defs, status)
      ensures CountPending(status) == CountPending(old(status)) - |ready|
      ensures forall i :: i in ready ==> i < |defs| && status[i] != Pending
    {
      var next: nat := 0;
      var running: set<nat> := {};
      while next < |ready| || running != {}
        invariant Valid() && InWave(ready, next, running)
        invariant CountPending(status) == CountPending(old(status)) - next
        decreases |ready| - next, |running|
      {
        var interleave: bool := *;
        if next < |ready| && (running == {} || interleave) {
          running := StartNext(ready, next, running);
          next := next + 1;
        } else {
          var i :| i in running;
          FinishOne(ready, next, running, i);
          running := running - {i};
        }
      }
    }

    /** Runs the plan; `cancelled` says in which wave the context is found
        cancelled. */
    method Run(cancelled: nat -> bool, ghost claude: nat) returns (wasCancelled: bool)
      requires Valid() && Settled(defs, status) && broken.None? && Shape(defs, claude)
      modifies this
      ensures Valid() && Settled(defs, status)
      ensures broken.None? && !wasCancelled ==> Completed(defs, status)
    {
      wasCancelled := false;
      var wave := 0;
      while true
        invariant Valid() && Settled(defs, status) && broken.None?
        decreases CountPending(status)
      {
        if cancelled(wave) {
          return true;
        }
        var ready := CollectReady();
        if |ready| == 0 {
          assert forall i :: 0 <= i < |defs| ==> !Ready(defs, status, i);
          NoStall(defs, outcome, status, log, claude);
          return;
        }
        RunWave(ready);
        if broken.Some? {
          return;
        }
        wave := wave + 1;
      }
    }
  }

  /** Where an unbroken run ends: every foreground step has finished, every
      background step behind a foreground step was launched, and a background
      step behind a background step never became ready. */
  ghost predicate Completed(defs: seq<StepDef>, status: seq<Status>) {
    |status| == |defs| &&
    forall i :: 0 <= i < |defs| ==>
                  if !defs[i].background then Terminal(status[i])
                  else defs[i].dependsOn.Some? && defs[i].dependsOn.value < |defs| &&
                       if defs[defs[i].dependsOn.value].background then status[i] == Pending else status[i] == Running
  }

  lemma {:induction false} NothingFinished(outcome: nat -> Outcome, status: seq<Status>)
    requires forall i :: 0 <= i < |status| ==> status[i] == Pending
    ensures AllMessages(outcome, status) == multiset{}
  {
    if status != [] {
      NothingFinished(outcome, status[..|status| - 1]);
    }
  }

  lemma ExtendLog(defs: seq<StepDef>, log: seq<Event>, e: Event)
    requires LogAllowed(defs, log) && EventAllowed(defs, log, e)
    ensures LogAllowed(defs, log + [e])
    ensures forall x :: x in log + [e] <==> x in log || x == e
  {
    assert (log + [e])[..|log|] == log;
  }

  // --- no stall ------------------------------------------------------------

  /** Started or finished steps have such an event in the log, justified by
      what came before it. */
  lemma EventHasPast(defs: seq<StepDef>, log: seq<Event>, e: Event) returns (p: nat)
    requires LogAllowed(defs, log) && e in log
    ensures p < |log| && log[p] == e && EventAllowed(defs, log[..p], e)
    ensures forall x :: x in log[..p] ==> x in log
  {
    p :| 0 <= p < |log| && log[p] == e;
    AllowedAt(defs, log, p);
  }

  /** Background steps never finish in the scheduler's view. */
  lemma BackgroundNeverTerminal(defs: seq<StepDef>, outcome: nat -> Outcome, status: seq<Status>, log: seq<Event>,
                                i: nat)
    requires Consistent(defs, outcome, status, log) && i < |defs| && defs[i].background
    ensures !Terminal(status[i]) && Finished(i) !in log
  {
    if Finished(i) in log {
      var p := EventHasPast(defs, log, Finished(i));
    }
  }

  /** A step that waits for a background step is never claimed. */
  lemma ChainedNeverStarts(defs: seq<StepDef>, outcome: nat -> Outcome, status: seq<Status>, log: seq<Event>, i: nat,
                           d: nat)
    requires Consistent(defs, outcome, status, log)
    requires i < |defs| && defs[i].kind != CreateSessionDir && defs[i].dependsOn == Some(d) && d < |defs|
    requires defs[d].background
    ensures status[i] == Pending && Started(i) !in log
  {
    BackgroundNeverTerminal(defs, outcome, status, log, d);
    if Started(i) in log {
      var p := EventHasPast(defs, log, Started(i));
    }
  }

  lemma {:induction false} ForegroundFinishes(defs: seq<StepDef>, status: seq<Status>, claude: nat, i: nat)
    requires Shape(defs, claude) && |status| == |defs| && Settled(defs, status)
    requires forall j :: 0 <= j < |defs| ==> !Ready(defs, status, j)
    requires i < claude && !defs[i].background
    ensures Terminal(status[i])
  {
    assert !Ready(defs, status, i);
    if i > 0 {
      ForegroundFinishes(defs, status, claude, defs[i].dependsOn.value);
    }
  }

  lemma TailFinishes(defs: seq<StepDef>, status: seq<Status>, claude: nat)
    requires Shape(defs, claude) && |status| == |defs| && Settled(defs, status)
    requires forall j :: 0 <= j < |defs| ==> !Ready(defs, status, j)
    ensures Terminal(status[claude])
    ensures |defs| == claude + 2 ==> Terminal(status[claude + 1])
  {
    forall i | 0 <= i < claude && !defs[i].background ensures Terminal(status[i]) {
      ForegroundFinishes(defs, status, claude, i);
    }
    assert !Ready(defs, status, claude);
    assert |defs| == claude + 2 ==> !Ready(defs, status, claude + 1);
  }

  lemma BackgroundLaunched(defs: seq<StepDef>, outcome: nat -> Outcome, status: seq<Status>, log: seq<Event>,
                           claude: nat, i: nat)
    requires Shape(defs, claude) && Consistent(defs, outcome, status, log) && Settled(defs, status)
    requires forall j :: 0 <= j < |defs| ==> !Ready(defs, status, j)
    requires i < |defs| && defs[i].background
    ensures defs[i].dependsOn.Some? && defs[i].dependsOn.value < |defs|
    ensures if defs[defs[i].dependsOn.value].background then status[i] == Pending else status[i] == Running
  {
    var d := defs[i].dependsOn.value;
    if defs[d].background {
      ChainedNeverStarts(defs, outcome, status, log, i, d);
    } else {
      BackgroundNeverTerminal(defs, outcome, status, log, i);
      ForegroundFinishes(defs, status, claude, d);
      assert !Ready(defs, status, i);
    }
  }

  lemma NoStall(defs: seq<StepDef>, outcome: nat -> Outcome, status: seq<Status>, log: seq<Event>, claude: nat)
    requires Shape(defs, claude) && Consistent(defs, outcome, status, log) && Settled(defs, status)
    requires forall j :: 0 <= j < |defs| ==> !Ready(defs, status, j)
    ensures Completed(defs, status)
  {
    TailFinishes(defs, status, claude);
    forall i | 0 <= i < claude && !defs[i].background ensures Terminal(status[i]) {
      ForegroundFinishes(defs, status, claude, i);
    }
    forall i | 0 <= i < |defs| && defs[i].background
      ensures defs[i].dependsOn.Some? && defs[i].dependsOn.value < |defs| &&
              if defs[defs[i].dependsOn.value].background then status[i] == Pending else status[i] == Running
    {
      BackgroundLaunched(defs, outcome, status, log, claude, i);
    }
  }

  /** An unbroken, uncancelled setup with background steps starts every step
      of its plan if and only if no workspace configures two install actions. */
  lemma EveryStepStarts(workspaces: seq<Workspace>, configs: Configs, defs: seq<StepDef>, status: seq<Status>)
    requires defs in {WorkspacePlan(workspaces, configs), SessionPlan(workspaces, configs)} && Completed(defs, status)
    ensures (forall i :: 0 <= i < |defs| ==> status[i] != Pending) <==> OneInstallEach(workspaces, configs)
  {
    UnchainedIff(workspaces, configs);
    if forall i :: 0 <= i < |defs| ==> status[i] != Pending {
      forall i | 0 <= i < |defs| && defs[i].background ensures !defs[defs[i].dependsOn.value].background {
        assert status[i] != Pending;
      }
    } else {
      var i :| 0 <= i < |defs| && status[i] == Pending;
      assert defs[i].background && defs[defs[i].dependsOn.value].background;
    }
  }

  /** Two install actions of one workspace: run in the background, the second
      is never started although the run completes. */
  lemma SecondInstallNeverStarts(ws: Workspace, first: Action, second: Action)
    requires first.kind == InstallAction && second.kind == InstallAction
    ensures var defs := SessionPlan([ws], map[ws.id := [first, second]]);
            forall outcome, status, log :: Consistent(defs, outcome, status, log) ==>
              |status| == 6 && status[3] == Pending
  {
    var defs := SessionPlan([ws], map[ws.id := [first, second]]);
    TwoInstallPlan(ws, first, second);
    forall outcome, status, log | Consistent(defs, outcome, status, log) ensures |status| == 6 && status[3] == Pending {
      ChainedNeverStarts(defs, outcome, status, log, 3, 2);
    }
  }

  lemma TwoInstallPlan(ws: Workspace, first: Action, second: Action)
    requires first.kind == InstallAction && second.kind == InstallAction
    ensures var defs := SessionPlan([ws], map[ws.id := [first, second]]);
            && |defs| == 6 && defs[2].background && defs[3].kind == InstallDeps
            && defs[3].background && defs[3].dependsOn == Some(2)
  {
    var actions := [first, second];
    assert actions[..1] == [first] && [first][..0] == [];
    assert Only([first], InstallAction) == [first] && Only(actions, InstallAction) == [first, second];
    assert Only([first], CopyAction) == [];
    assert Only(actions, CopyAction) == Only(actions[..1], CopyAction);
    var wss := [ws];
    assert wss[..0] == [];
    assert StepsBeforeClaude(wss, map[ws.id := actions]) == [SESSION_DIR_STEP] + WorkspaceSteps(ws, actions, 1);
  }

  // --- ordering --------------------------------------------------------------

  /** A step starts only after its dependency has finished, and at most once. */
  lemma StartsAfterDependency(defs: seq<StepDef>, log: seq<Event>, p: nat)
    requires LogAllowed(defs, log) && p < |log| && log[p].Started?
    ensures var i := log[p].step;
            && i < |defs|
            && (defs[i].kind != CreateSessionDir && defs[i].dependsOn.Some? ==>
                  exists q :: 0 <= q < p && log[q] == Finished(defs[i].dependsOn.value))
            && (forall q :: 0 <= q < |log| && log[q] == log[p] ==> q == p)
  {
    AllowedAt(defs, log, p);
    OncePerLog(defs, log);
    var i := log[p].step;
    if defs[i].kind != CreateSessionDir && defs[i].dependsOn.Some? {
      var q :| 0 <= q < p && log[..p][q] == Finished(defs[i].dependsOn.value);
    }
  }

  lemma OncePerLog(defs: seq<StepDef>, log: seq<Event>)
    requires LogAllowed(defs, log)
    ensures forall q, p :: 0 <= q < p < |log| ==> log[q] != log[p]
  {
    forall q, p | 0 <= q < p < |log| ensures log[q] != log[p] {
      AllowedAt(defs, log, p);
      assert log[..p][q] == log[q];
    }
  }

  /** Claude settings are applied only after every foreground step of every
      workspace has finished. */
  lemma ClaudeAfterWorkspaces(defs: seq<StepDef>, claude: nat, log: seq<Event>, p: nat, o: nat)
    requires Shape(defs, claude) && LogAllowed(defs, log) && p < |log| && log[p] == Started(claude)
    requires o < |defs| && defs[o].workspace.Some? && !defs[o].background
    ensures exists q :: 0 <= q < p && log[q] == Finished(o)
  {
    AllowedAt(defs, log, p);
    var q :| 0 <= q < p && log[..p][q] == Finished(o);
  }

  lemma FinishedBefore(defs: seq<StepDef>, log: seq<Event>, p: nat, i: nat) returns (q: nat)
    requires p < |log| && Finished(i) in log[..p] && LogAllowed(defs, log)
    ensures q < p && log[q] == Finished(i) && Started(i) in log[..q]
  {
    q :| 0 <= q < p && log[..p][q] == Finished(i);
    AllowedAt(defs, log, q);
  }

  /** In a plan with a workspace the terminal session starts last: every other
      foreground step has finished before it. */
  lemma TerminalSessionLast(defs: seq<StepDef>, claude: nat, log: seq<Event>, p: nat, i: nat)
    requires Shape(defs, claude) && 1 < claude && defs[1].kind == SetupWorktree && |defs| == claude + 2
    requires LogAllowed(defs, log) && p < |log| && log[p] == Started(claude + 1)
    requires i < claude + 1 && !defs[i].background
    ensures exists q :: 0 <= q < p && log[q] == Finished(i)
  {
    AllowedAt(defs, log, p);
    var q := FinishedBefore(defs, log, p, claude);
    if i < claude {
      var s :| 0 <= s < q && log[..q][s] == Started(claude);
      var worker := if i == 0 then 1 else i;
      ClaudeAfterWorkspaces(defs, claude, log, s, worker);
      if i == 0 {
        var t := FinishedBefore(defs, log, s, 1);
        var u :| 0 <= u < t && log[..t][u] == Started(1);
        StartsAfterDependency(defs, log, u);
        assert defs[1].dependsOn == Some(0);
      }
    }
  }

  /** In a completed run every foreground step, and every background step
      behind a foreground step, has started exactly once. */
  lemma StartedExactlyOnce(defs: seq<StepDef>, outcome: nat -> Outcome, status: seq<Status>, log: seq<Event>, i: nat)
    returns (p: nat)
    requires Consistent(defs, outcome, status, log) && Completed(defs, status)
    requires i < |defs| && (defs[i].background ==> !defs[defs[i].dependsOn.value].background)
    ensures p < |log| && log[p] == Started(i)
    ensures forall q :: 0 <= q < |log| && log[q] == Started(i) ==> q == p
  {
    assert Started(i) in log;
    p :| 0 <= p < |log| && log[p] == Started(i);
    OncePerLog(defs, log);
  }

  /** A whole session setup, with background steps claimed in the foreground or
      not. */
  method RunSetup(workspaces: seq<Workspace>, configs: Configs, foreground: bool, outcome: nat -> Outcome,
                  cancelled: nat -> bool)
    returns (e: SetupExecution, wasCancelled: bool)
    ensures fresh(e) && e.Valid() && e.outcome == outcome
    ensures e.defs ==
            if foreground then InForeground(SessionPlan(workspaces, configs)) else SessionPlan(workspaces, configs)
    ensures e.broken.None? && !wasCancelled ==> Completed(e.defs, e.status)
    ensures foreground && e.broken.None? && !wasCancelled ==> forall i :: 0 <= i < |e.defs| ==> Terminal(e.status[i])
    ensures !foreground && e.broken.None? && !wasCancelled ==>
              ((forall i :: 0 <= i < |e.defs| ==> e.status[i] != Pending) <==> OneInstallEach(workspaces, configs))
  {
    var defs := BuildSetupSteps(workspaces, configs);
    PlansHaveShape(workspaces, configs);
    if foreground {
      defs := InForeground(defs);
    }
    e := new SetupExecution(defs, outcome);
    wasCancelled := e.Run(cancelled, |StepsBeforeClaude(workspaces, configs)|);
    if !foreground && e.broken.None? && !wasCancelled {
      EveryStepStarts(workspaces, configs, e.defs, e.status);
    }
  }
}
