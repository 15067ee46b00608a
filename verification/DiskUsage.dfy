/** The disk-usage cache: a queue of roots to measure, one goroutine draining
    it, and a bound on how much of the time is spent walking. */
module DiskUsage {
  import opened BrowserTypes

  const WALK_COST_FACTOR := 10

  datatype Entry = Entry(bytes: int, known: bool, pending: bool, staleAt: Time)

  const NEW_ENTRY := Entry(0, false, false, 0)

  /** One finished measurement, and what it found if it succeeded. */
  datatype Walk = Walk(root: string, start: Time, end: Time, bytes: Option<int>)

  /** Where the draining goroutine is: choosing the next root, holding one it
      took, or measuring it since `start`. */
  datatype Drainer = Choosing | Taken(root: string) | Walking(root: string, start: Time)

  /** `done` is set while a drainer has been started and not yet retired;
      `drainers` counts those goroutines. */
  datatype State = State(entries: map<string, Entry>, queue: seq<string>, done: bool, drainers: nat, drainer: Drainer,
                         clock: Time, walks: seq<Walk>)

  datatype Step = Sizes(roots: seq<string>, now: Time) | Take | Begin(now: Time) | Finish(now: Time, bytes: Option<int>)

  const INITIAL := State(map[], [], false, 0, Choosing, 0, [])

  function EntryOf(entries: map<string, Entry>, root: string): Entry {
    if root in entries then entries[root] else NEW_ENTRY
  }

  /** A requested root is queued when it is not pending and no longer fresh. */
  predicate Due(e: Entry, now: Time) {
    !e.pending && now >= e.staleAt
  }

  function Requested(entries: map<string, Entry>, roots: seq<string>, now: Time): map<string, Entry> {
    if roots == [] then entries
    else
      var before := Requested(entries, roots[..|roots| - 1], now);
      var root := roots[|roots| - 1];
      if root == "" || !Due(EntryOf(before, root), now) then before
      else before[root := EntryOf(before, root).(pending := true)]
  }

  function Queued(entries: map<string, Entry>, queue: seq<string>, roots: seq<string>, now: Time): seq<string> {
    if roots == [] then queue
    else
      var init := roots[..|roots| - 1];
      var root := roots[|roots| - 1];
      Queued(entries, queue, init, now) +
      if root == "" || !Due(EntryOf(Requested(entries, init, now), root), now) then [] else [root]
  }

  function Wanted(roots: seq<string>): set<string> {
    if roots == [] then {}
    else
      var root := roots[|roots| - 1];
      if root == "" then Wanted(roots[..|roots| - 1]) else Wanted(roots[..|roots| - 1]) + {root}
  }

  /** Entries nobody asks for are forgotten, unless they are being measured. */
  function Retained(entries: map<string, Entry>, roots: seq<string>): map<string, Entry> {
    map root | root in entries && (root in Wanted(roots) || entries[root].pending) :: entries[root]
  }

  /** The sizes known for the requested roots. */
  function Known(entries: map<string, Entry>, roots: seq<string>): map<string, int> {
    if roots == [] then map[]
    else
      var root, before := roots[|roots| - 1], Known(entries, roots[..|roots| - 1]);
      if root == "" || !EntryOf(entries, root).known then before else before[root := EntryOf(entries, root).bytes]
  }

  function Max(a: Time, b: Time): Time {
    if a >= b then a else b
  }

  predicate Enabled(s: State, step: Step) {
    match step
    case Sizes(roots, now) => now >= s.clock
    case Take => s.drainers > 0 && s.drainer.Choosing?
    case Begin(now) => s.drainers > 0 && s.drainer.Taken? && now >= s.clock
    case Finish(now, bytes) => s.drainers > 0 && s.drainer.Walking? && now >= s.clock
  }

  function Next(s: State, step: Step, ttl: Time): State {
    if !Enabled(s, step) then s
    else match step
      case Sizes(roots, now) =>
        var queue := Queued(s.entries, s.queue, roots, now);
        var starts := queue != [] && !s.done;
        s.(entries := Retained(Requested(s.entries, roots, now), roots), queue := queue, clock := now,
           done := s.done || starts, drainers := s.drainers + (if starts then 1 else 0),
           drainer := if starts then Choosing else s.drainer)
      case Take =>
        if s.queue == [] then s.(done := false, drainers := s.drainers - 1)
        else s.(queue := s.queue[1..], drainer := Taken(s.queue[0]))
      case Begin(now) => s.(drainer := Walking(s.drainer.root, now), clock := now)
      case Finish(now, bytes) =>
        var root, start := s.drainer.root, s.drainer.start;
        var cost := if now >= start then now - start else 0;
        var e := EntryOf(s.entries, root).(pending := false, staleAt := now + Max(ttl, WALK_COST_FACTOR * cost));
        s.(entries := s.entries[root := if bytes.Some? then e.(bytes := bytes.value, known := true) else e],
           drainer := Choosing, clock := now, walks := s.walks + [Walk(root, start, now, bytes)])
  }

  function Run(steps: seq<Step>, ttl: Time): State {
    if steps == [] then INITIAL else Next(Run(steps[..|steps| - 1], ttl), steps[|steps| - 1], ttl)
  }

  // --- the cache object ------------------------------------------------------

  class Cache {
    const ttl: Time
    var entries: map<string, Entry>
    var queue: seq<string>
    var done: bool
    var drainers: nat
    var drainer: Drainer
    var clock: Time
    ghost var walks: seq<Walk>

    ghost function View(): State
      reads this
    {
      State(entries, queue, done, drainers, drainer, clock, walks)
    }

    constructor (ttl: Time)
      ensures this.ttl == ttl && View() == INITIAL
    {
      this.ttl := ttl;
      entries, queue, done, drainers, drainer, clock, walks := map[], [], false, 0, Choosing, 0, [];
    }

    method SizesOf(roots: seq<string>, now: Time) returns (sizes: map<string, int>)
      requires now >= clock
      modifies this
      ensures View() == Next(old(View()), Sizes(roots, now), ttl)
      ensures sizes == Known(old(entries), roots)
    {
      var wanted: set<string> := {};
      sizes := map[];
      clock := now;
      for n := 0 to |roots|
        invariant entries == Requested(old(entries), roots[..n], now)
        invariant queue == Queued(old(entries), old(queue), roots[..n], now)
        invariant wanted == Wanted(roots[..n])
        invariant sizes == Known(old(entries), roots[..n])
        invariant done == old(done) && drainers == old(drainers) && drainer == old(drainer) && clock == now
        invariant walks == old(walks)
      {
        var root := roots[n];
        assert roots[..n + 1][..n] == roots[..n];
        RequestKeepsSize(old(entries), roots[..n], now, root);
        if root == "" {
          continue;
        }
        wanted := wanted + {root};
        var e := EntryOf(entries, root);
        if e.known {
          sizes := sizes[root := e.bytes];
        }
        if !e.pending && now >= e.staleAt {
          entries := entries[root := e.(pending := true)];
          queue := queue + [root];
        }
      }
      assert roots[..|roots|] == roots;
      entries := map root | root in entries && (root in wanted || entries[root].pending) :: entries[root];
      if |queue| > 0 && !done {
        done := true;
        drainers := drainers + 1;
        drainer := Choosing;
      }
    }

    /** The drainer takes the next root, or retires when there is none. */
    method TakeNext()
      requires drainers > 0 && drainer.Choosing?
      modifies this
      ensures View() == Next(old(View()), Take, ttl)
    {
      if |queue| == 0 {
        done := false;
        drainers := drainers - 1;
        return;
      }
      drainer := Taken(queue[0]);
      queue := queue[1..];
    }

    method StartWalk(now: Time)
      requires drainers > 0 && drainer.Taken? && now >= clock
      modifies this
      ensures View() == Next(old(View()), Begin(now), ttl)
    {
      drainer := Walking(drainer.root, now);
      clock := now;
    }

    method FinishWalk(now: Time, bytes: Option<int>)
      requires drainers > 0 && drainer.Walking? && now >= clock
      modifies this
      ensures View() == Next(old(View()), Finish(now, bytes), ttl)
    {
      var root, start := drainer.root, drainer.start;
      var e := EntryOf(entries, root).(pending := false);
      var cost := if now >= start then now - start else 0;
      e := e.(staleAt := now + Max(ttl, WALK_COST_FACTOR * cost));
      if bytes.Some? {
        e := e.(bytes := bytes.value, known := true);
      }
      entries := entries[root := e];
      drainer := Choosing;
      clock := now;
      walks := walks + [Walk(root, start, now, bytes)];
    }
  }

  lemma {:induction false} RequestKeepsSize(entries: map<string, Entry>, roots: seq<string>, now: Time, root: string)
    ensures EntryOf(Requested(entries, roots, now), root).known == EntryOf(entries, root).known
    ensures EntryOf(Requested(entries, roots, now), root).bytes == EntryOf(entries, root).bytes
    ensures EntryOf(Requested(entries, roots, now), root).staleAt == EntryOf(entries, root).staleAt
  {
    if roots != [] {
      RequestKeepsSize(entries, roots[..|roots| - 1], now, root);
    }
  }
}
