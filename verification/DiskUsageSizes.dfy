/** The sizes the disk-usage cache answers with: always what the last successful
    measurement of the root found, and which roots it measures when. */
module DiskUsageSizes {
  import opened BrowserTypes
  import opened DiskUsage
  import opened DiskUsageRuns

  /** The last measurement of the root that succeeded found `bytes`. */
  ghost predicate LastFound(walks: seq<Walk>, root: string, bytes: int) {
    exists k :: FoundAt(walks, root, bytes, k)
  }

  ghost predicate FoundAt(walks: seq<Walk>, root: string, bytes: int, k: nat) {
    && k < |walks| && walks[k].root == root && walks[k].bytes == Some(bytes)
    && forall j :: k < j < |walks| && walks[j].root == root ==> walks[j].bytes.None?
  }

  lemma FoundStays(walks: seq<Walk>, w: Walk, root: string, bytes: int)
    requires LastFound(walks, root, bytes) && (w.root != root || w.bytes.None?)
    ensures LastFound(walks + [w], root, bytes)
  {
    var k :| FoundAt(walks, root, bytes, k);
    assert FoundAt(walks + [w], root, bytes, k);
  }

  lemma FoundNow(walks: seq<Walk>, w: Walk)
    requires w.bytes.Some?
    ensures LastFound(walks + [w], w.root, w.bytes.value)
  {
    assert FoundAt(walks + [w], w.root, w.bytes.value, |walks|);
  }

  ghost predicate Sized(s: State, root: string) {
    EntryOf(s.entries, root).known ==> LastFound(s.walks, root, EntryOf(s.entries, root).bytes)
  }

  lemma StepKeepsSized(s: State, step: Step, ttl: Time, root: string)
    requires Sized(s, root)
    ensures Sized(Next(s, step, ttl), root)
  {
    if Enabled(s, step) {
      match step
      case Sizes(roots, now) => RequestKeepsSize(s.entries, roots, now, root);
      case Finish(now, bytes) => FinishKeepsSized(s, now, bytes, ttl, root);
      case _ =>
    }
  }

  lemma FinishKeepsSized(s: State, now: Time, bytes: Option<int>, ttl: Time, root: string)
    requires Sized(s, root) && Enabled(s, Finish(now, bytes))
    ensures Sized(Next(s, Finish(now, bytes), ttl), root)
  {
    var w := Walk(s.drainer.root, s.drainer.start, now, bytes);
    if root == w.root && bytes.Some? {
      FoundNow(s.walks, w);
    } else if EntryOf(s.entries, root).known {
      FoundStays(s.walks, w, root, EntryOf(s.entries, root).bytes);
    }
  }

  lemma {:induction false} RunKeepsSized(steps: seq<Step>, ttl: Time, root: string)
    ensures Sized(Run(steps, ttl), root)
  {
    if steps != [] {
      RunKeepsSized(steps[..|steps| - 1], ttl, root);
      StepKeepsSized(Run(steps[..|steps| - 1], ttl), steps[|steps| - 1], ttl, root);
    }
  }

  lemma {:induction false} KnownIff(entries: map<string, Entry>, roots: seq<string>, root: string)
    ensures root in Known(entries, roots) <==> root != "" && root in roots && EntryOf(entries, root).known
    ensures root in Known(entries, roots) ==> Known(entries, roots)[root] == EntryOf(entries, root).bytes
  {
    if roots != [] {
      KnownIff(entries, roots[..|roots| - 1], root);
    }
  }

  /** Over any run: a size that is answered was asked for and is what the last
      successful measurement of that root found. */
  lemma SizesAreMeasured(steps: seq<Step>, ttl: Time, roots: seq<string>, root: string)
    requires root in Known(Run(steps, ttl).entries, roots)
    ensures root in roots && LastFound(Run(steps, ttl).walks, root, Known(Run(steps, ttl).entries, roots)[root])
  {
    KnownIff(Run(steps, ttl).entries, roots, root);
    RunKeepsSized(steps, ttl, root);
  }

  /** Some measurement of the root succeeded. */
  ghost predicate EverFound(walks: seq<Walk>, root: string) {
    exists w :: w in walks && w.root == root && w.bytes.Some?
  }

  lemma RequestKeepsKnown(s: State, roots: seq<string>, now: Time, ttl: Time, root: string)
    requires root in s.entries && s.entries[root].known && root != "" && root in roots && now >= s.clock
    ensures EntryOf(Next(s, Sizes(roots, now), ttl).entries, root).known
  {
    WantedIsRequested(roots, root);
    PendingWasDue(s.entries, roots, now, root);
    RequestKeepsSize(s.entries, roots, now, root);
  }

  /** Over any run: a root that every call asks for is answered for from its
      first successful measurement on. */
  lemma {:induction false} MeasuredIsAnswered(steps: seq<Step>, ttl: Time, root: string, roots: seq<string>)
    requires root != "" && AlwaysRequested(steps, root) && EverFound(Run(steps, ttl).walks, root) && root in roots
    ensures root in Known(Run(steps, ttl).entries, roots)
  {
    KnownIff(Run(steps, ttl).entries, roots, root);
    var s, step := Run(steps[..|steps| - 1], ttl), steps[|steps| - 1];
    if EverFound(s.walks, root) {
      MeasuredIsAnswered(steps[..|steps| - 1], ttl, root, roots);
      KnownIff(s.entries, roots, root);
      if step.Sizes? && Enabled(s, step) {
        RequestKeepsKnown(s, step.roots, step.now, ttl, root);
      }
    }
  }

  // --- which roots are queued ----------------------------------------------------

  lemma {:induction false} QueuedIff(entries: map<string, Entry>, queue: seq<string>, roots: seq<string>, now: Time,
                                     root: string)
    ensures queue <= Queued(entries, queue, roots, now)
    ensures root in Queued(entries, queue, roots, now) <==>
            root in queue || (root != "" && root in roots && Due(EntryOf(entries, root), now))
    ensures EntryOf(Requested(entries, roots, now), root).pending <==>
            EntryOf(entries, root).pending || (root != "" && root in roots && Due(EntryOf(entries, root), now))
  {
    if roots != [] {
      QueuedIff(entries, queue, roots[..|roots| - 1], now, root);
      RequestKeepsSize(entries, roots[..|roots| - 1], now, root);
    }
  }

  /** A request queues behind those that wait exactly the roots asked for that
      are neither waiting or being measured nor fresh. */
  lemma RequestQueues(s: State, roots: seq<string>, now: Time, ttl: Time, root: string)
    requires now >= s.clock
    ensures var t, e := Next(s, Sizes(roots, now), ttl), EntryOf(s.entries, root);
            && s.queue <= t.queue
            && (root in t.queue <==>
                root in s.queue || (root != "" && root in roots && !e.pending && now >= e.staleAt))
  {
    QueuedIff(s.entries, s.queue, roots, now, root);
  }

  /** The roots a request queues keep the order they were asked for in. */
  lemma {:induction false} QueuedInOrder(entries: map<string, Entry>, queue: seq<string>, roots: seq<string>, now: Time)
    returns (order: seq<nat>)
    ensures Increasing(order) && |Queued(entries, queue, roots, now)| == |queue| + |order|
    ensures forall i :: 0 <= i < |order| ==>
              order[i] < |roots| && Queued(entries, queue, roots, now)[|queue| + i] == roots[order[i]]
  {
    order := [];
    if roots != [] {
      var n := |roots| - 1;
      var before := QueuedInOrder(entries, queue, roots[..n], now);
      var due := roots[n] != "" && Due(EntryOf(Requested(entries, roots[..n], now), roots[n]), now);
      order := WithPosition(before, n, due);
      PositionAdded(before, n, due);
    }
  }

  lemma {:induction false} WantedIff(roots: seq<string>, root: string)
    ensures root in Wanted(roots) <==> root != "" && root in roots
  {
    if roots != [] {
      WantedIff(roots[..|roots| - 1], root);
    }
  }

  /** A request forgets exactly the roots not asked for that are neither waiting
      nor being measured; what it keeps it keeps as it was but for the mark that
      it waits. */
  lemma RequestRetains(s: State, roots: seq<string>, now: Time, ttl: Time, root: string)
    requires now >= s.clock && root in s.entries
    ensures var t, e := Next(s, Sizes(roots, now), ttl), s.entries[root];
            && (root in t.entries <==> e.pending || (root != "" && root in roots))
            && (root in t.entries ==> t.entries[root] == e.(pending := t.entries[root].pending))
  {
    WantedIff(roots, root);
    QueuedIff(s.entries, s.queue, roots, now, root);
    PendingWasDue(s.entries, roots, now, root);
    RequestKeepsSize(s.entries, roots, now, root);
  }

  /** After a measurement the root is measured again, if asked for, once the time
      to live and ten times what the measurement took have passed. */
  lemma MeasuredAgainWhenStale(s: State, now: Time, bytes: Option<int>, roots: seq<string>, later: Time, ttl: Time)
    requires Invariant(s) && Enabled(s, Finish(now, bytes)) && s.drainer.start <= now <= later
    requires s.drainer.root != "" && s.drainer.root in roots
    ensures var root, cost := s.drainer.root, now - s.drainer.start;
            root in Next(Next(s, Finish(now, bytes), ttl), Sizes(roots, later), ttl).queue <==>
            later >= now + ttl && later >= now + 10 * cost
  {
    var root := s.drainer.root;
    assert Busy(s.drainer, root);
    RequestQueues(Next(s, Finish(now, bytes), ttl), roots, later, ttl, root);
  }

  /** A drainer takes what has waited longest, and measures that. */
  lemma TakesTheFirst(s: State, now: Time, end: Time, bytes: Option<int>, ttl: Time)
    requires s.drainers > 0 && s.drainer.Choosing? && s.queue != [] && s.clock <= now <= end
    ensures var t := Next(Next(Next(s, Take, ttl), Begin(now), ttl), Finish(end, bytes), ttl);
            && t.queue == s.queue[1..] && t.walks == s.walks + [Walk(s.queue[0], now, end, bytes)]
            && EntryOf(t.entries, s.queue[0]).known == (bytes.Some? || EntryOf(s.entries, s.queue[0]).known)
  {
  }
}
