/** What every run of the disk-usage cache keeps, and how little of the time it
    spends walking. */
module DiskUsageRuns {
  import opened BrowserTypes
  import opened DiskUsage

  predicate NoDuplicates(queue: seq<string>) {
    queue == [] || (queue[|queue| - 1] !in queue[..|queue| - 1] && NoDuplicates(queue[..|queue| - 1]))
  }

  /** The root the drainer took from the queue and has not finished. */
  predicate Busy(d: Drainer, root: string) {
    !d.Choosing? && d.root == root
  }

  /** A root is pending exactly when it is queued or being measured, and never
      both, nor queued twice. */
  ghost predicate Accounted(entries: map<string, Entry>, queue: seq<string>, d: Drainer) {
    && NoDuplicates(queue)
    && (forall root :: EntryOf(entries, root).pending <==> root in queue || Busy(d, root))
    && (forall root :: Busy(d, root) ==> root !in queue)
  }

  /** At most one drainer runs, and a queue with roots in it always has one. */
  predicate Staffed(s: State) {
    && s.drainers == (if s.done then 1 else 0)
    && (s.queue != [] ==> s.done)
    && (!s.done ==> s.drainer.Choosing?)
  }

  ghost predicate Invariant(s: State) {
    Staffed(s) && Accounted(s.entries, s.queue, s.drainer)
  }

  lemma {:induction false} DistinctTail(queue: seq<string>)
    requires NoDuplicates(queue) && queue != []
    ensures NoDuplicates(queue[1..]) && queue[0] !in queue[1..]
  {
    if |queue| > 1 {
      var init, last := queue[..|queue| - 1], queue[|queue| - 1];
      DistinctTail(init);
      assert queue[1..] == init[1..] + [last];
      assert queue[1..][..|queue| - 2] == init[1..];
      assert init[0] == queue[0];
      assert forall x :: x in init[1..] ==> x in init;
    }
  }

  lemma {:induction false} RequestsAreAccounted(entries: map<string, Entry>, queue: seq<string>, d: Drainer,
                                                roots: seq<string>, now: Time)
    requires Accounted(entries, queue, d)
    ensures Accounted(Requested(entries, roots, now), Queued(entries, queue, roots, now), d)
    decreases |roots|
  {
    if roots != [] {
      var init, root := roots[..|roots| - 1], roots[|roots| - 1];
      RequestsAreAccounted(entries, queue, d, init, now);
      var e, q := Requested(entries, init, now), Queued(entries, queue, init, now);
      if root == "" || !Due(EntryOf(e, root), now) {
        assert q + [] == q;
      } else {
        AppendIsDistinct(q, root);
      }
    }
  }

  lemma AppendIsDistinct(queue: seq<string>, root: string)
    requires NoDuplicates(queue) && root !in queue
    ensures NoDuplicates(queue + [root])
  {
    assert (queue + [root])[..|queue|] == queue;
  }

  lemma {:induction false} StepKeepsInvariant(s: State, step: Step, ttl: Time)
    requires Invariant(s)
    ensures Invariant(Next(s, step, ttl))
  {
    if Enabled(s, step) {
      match step
      case Sizes(roots, now) => RequestsAreAccounted(s.entries, s.queue, s.drainer, roots, now);
      case Take => if s.queue != [] { DistinctTail(s.queue); }
      case Begin(now) =>
      case Finish(now, bytes) =>
    }
  }

  lemma {:induction false} RunKeepsInvariant(steps: seq<Step>, ttl: Time)
    ensures Invariant(Run(steps, ttl))
  {
    if steps != [] {
      RunKeepsInvariant(steps[..|steps| - 1], ttl);
      StepKeepsInvariant(Run(steps[..|steps| - 1], ttl), steps[|steps| - 1], ttl);
    }
  }

  // --- the duty cycle --------------------------------------------------------

  /** The measurements of one root, in order. */
  function WalksOf(walks: seq<Walk>, root: string): seq<Walk> {
    if walks == [] then []
    else
      WalksOf(walks[..|walks| - 1], root) + if walks[|walks| - 1].root == root then [walks[|walks| - 1]] else []
  }

  /** Ten more times what the measurement took have passed since it ended. */
  function RestedAt(w: Walk): int {
    w.end + WALK_COST_FACTOR * (w.end - w.start)
  }

  predicate Spaced(walks: seq<Walk>) {
    && (forall i :: 0 <= i < |walks| ==> walks[i].start <= walks[i].end)
    && (forall i :: 0 < i < |walks| ==> RestedAt(walks[i - 1]) <= walks[i].start)
  }

  /** Every call asks for the root. */
  predicate AlwaysRequested(steps: seq<Step>, root: string) {
    forall i :: 0 <= i < |steps| ==> steps[i].Sizes? ==> root in steps[i].roots
  }

  /** The root has an entry that keeps it from being queued before it rested,
      and once it is queued or being measured it has rested. */
  ghost predicate Resting(s: State, root: string) {
    var ws := WalksOf(s.walks, root);
    && Spaced(ws)
    && (s.drainer.Walking? ==> s.drainer.start <= s.clock)
    && (ws != [] ==>
          var rested := RestedAt(ws[|ws| - 1]);
          && root in s.entries && rested <= s.entries[root].staleAt
          && (s.entries[root].pending ==> rested <= s.clock)
          && (s.drainer.Walking? && s.drainer.root == root ==> rested <= s.drainer.start))
  }

  lemma {:induction false} WantedIsRequested(roots: seq<string>, root: string)
    requires root != "" && root in roots
    ensures root in Wanted(roots)
  {
    if roots[|roots| - 1] != root {
      WantedIsRequested(roots[..|roots| - 1], root);
    }
  }

  lemma {:induction false} PendingWasDue(entries: map<string, Entry>, roots: seq<string>, now: Time, root: string)
    ensures var e := EntryOf(Requested(entries, roots, now), root);
            e.pending ==> EntryOf(entries, root).pending || now >= EntryOf(entries, root).staleAt
    ensures root in entries ==> root in Requested(entries, roots, now)
  {
    if roots != [] {
      var init := roots[..|roots| - 1];
      PendingWasDue(entries, init, now, root);
      RequestKeepsSize(entries, init, now, root);
    }
  }

  lemma RequestKeepsResting(s: State, roots: seq<string>, now: Time, ttl: Time, root: string)
    requires Invariant(s) && Resting(s, root) && root != "" && root in roots && now >= s.clock
    ensures Resting(Next(s, Sizes(roots, now), ttl), root)
  {
    WantedIsRequested(roots, root);
    PendingWasDue(s.entries, roots, now, root);
    RequestKeepsSize(s.entries, roots, now, root);
  }

  lemma BeginKeepsResting(s: State, now: Time, ttl: Time, root: string)
    requires Invariant(s) && Resting(s, root) && Enabled(s, Begin(now))
    ensures Resting(Next(s, Begin(now), ttl), root)
  {
    assert s.drainer.root == root ==> Busy(s.drainer, root) && EntryOf(s.entries, root).pending;
  }

  lemma WalksOfAppend(walks: seq<Walk>, w: Walk, root: string)
    ensures WalksOf(walks + [w], root) == if w.root == root then WalksOf(walks, root) + [w] else WalksOf(walks, root)
  {
    assert (walks + [w])[..|walks|] == walks;
  }

  lemma SpacedAppend(ws: seq<Walk>, w: Walk)
    requires Spaced(ws) && w.start <= w.end
    requires ws != [] ==> RestedAt(ws[|ws| - 1]) <= w.start
    ensures Spaced(ws + [w])
  {
  }

  lemma FinishKeepsResting(s: State, now: Time, bytes: Option<int>, ttl: Time, root: string)
    requires Invariant(s) && Resting(s, root) && Enabled(s, Finish(now, bytes))
    ensures Resting(Next(s, Finish(now, bytes), ttl), root)
  {
    var w := Walk(s.drainer.root, s.drainer.start, now, bytes);
    var t := Next(s, Finish(now, bytes), ttl);
    WalksOfAppend(s.walks, w, root);
    assert t.walks == s.walks + [w] && t.clock == now && t.drainer.Choosing?;
    if w.root == root {
      SpacedAppend(WalksOf(s.walks, root), w);
      assert !t.entries[root].pending && t.entries[root].staleAt >= RestedAt(w);
    } else {
      assert EntryOf(t.entries, root) == EntryOf(s.entries, root);
    }
  }

  lemma {:induction false} StepKeepsResting(s: State, step: Step, ttl: Time, root: string)
    requires Invariant(s) && Resting(s, root) && root != ""
    requires step.Sizes? ==> root in step.roots
    ensures Resting(Next(s, step, ttl), root)
  {
    if Enabled(s, step) {
      match step
      case Sizes(roots, now) => RequestKeepsResting(s, roots, now, ttl, root);
      case Take =>
      case Begin(now) => BeginKeepsResting(s, now, ttl, root);
      case Finish(now, bytes) => FinishKeepsResting(s, now, bytes, ttl, root);
    }
  }

  lemma {:induction false} RunKeepsResting(steps: seq<Step>, ttl: Time, root: string)
    requires root != "" && AlwaysRequested(steps, root)
    ensures Resting(Run(steps, ttl), root)
  {
    if steps != [] {
      var init := steps[..|steps| - 1];
      RunKeepsResting(init, ttl, root);
      RunKeepsInvariant(init, ttl);
      StepKeepsResting(Run(init, ttl), steps[|steps| - 1], ttl, root);
    }
  }

  function Busied(walks: seq<Walk>): int {
    if walks == [] then 0 else Busied(walks[..|walks| - 1]) + walks[|walks| - 1].end - walks[|walks| - 1].start
  }

  /** A root that every call asks for is measured for at most one eleventh of
      the time between its first and its last measurement. */
  lemma {:induction false} DutyCycle(steps: seq<Step>, ttl: Time, root: string)
    requires root != "" && AlwaysRequested(steps, root)
    ensures var ws := WalksOf(Run(steps, ttl).walks, root);
            && (forall i :: 0 < i < |ws| ==> ws[i].start >= ws[i - 1].start + 11 * (ws[i - 1].end - ws[i - 1].start))
            && (ws != [] ==> 11 * Busied(ws[..|ws| - 1]) <= ws[|ws| - 1].start - ws[0].start)
  {
    RunKeepsResting(steps, ttl, root);
    var ws := WalksOf(Run(steps, ttl).walks, root);
    if ws != [] {
      SpacedIsSparse(ws);
    }
  }

  lemma {:induction false} SpacedIsSparse(ws: seq<Walk>)
    requires ws != [] && Spaced(ws)
    ensures 11 * Busied(ws[..|ws| - 1]) <= ws[|ws| - 1].start - ws[0].start
  {
    if |ws| > 1 {
      var init := ws[..|ws| - 1];
      SpacedIsSparse(init);
    }
  }

  lemma {:induction false} DueIsQueued(entries: map<string, Entry>, queue: seq<string>, roots: seq<string>, now: Time,
                                       root: string)
    requires root != "" && root in roots && Due(EntryOf(entries, root), now)
    ensures root in Queued(entries, queue, roots, now)
  {
    var init := roots[..|roots| - 1];
    if root in init {
      DueIsQueued(entries, queue, init, now, root);
    } else {
      UnrequestedIsUnchanged(entries, init, now, root);
    }
  }

  lemma {:induction false} UnrequestedIsUnchanged(entries: map<string, Entry>, roots: seq<string>, now: Time,
                                                  root: string)
    requires root !in roots
    ensures EntryOf(Requested(entries, roots, now), root) == EntryOf(entries, root)
  {
    if roots != [] {
      UnrequestedIsUnchanged(entries, roots[..|roots| - 1], now, root);
    }
  }

  lemma {:induction false} OnlyRequestedAreWanted(roots: seq<string>, root: string)
    requires root !in roots
    ensures root !in Wanted(roots)
  {
    if roots != [] {
      OnlyRequestedAreWanted(roots[..|roots| - 1], root);
    }
  }

  /** The bound needs the root in every call: one call without it forgets the
      entry, and the next call with it queues a measurement at once, however
      long the last one took. */
  lemma ForgottenRootIsQueuedAtOnce(s: State, without: seq<string>, with: seq<string>, now: Time, again: Time,
                                    ttl: Time, root: string)
    requires s.clock <= now <= again && root != "" && root !in without && root in with
    requires !EntryOf(s.entries, root).pending
    ensures root in Next(Next(s, Sizes(without, now), ttl), Sizes(with, again), ttl).queue
  {
    UnrequestedIsUnchanged(s.entries, without, now, root);
    OnlyRequestedAreWanted(without, root);
    var t := Next(s, Sizes(without, now), ttl);
    DueIsQueued(t.entries, t.queue, with, again, root);
  }
}
