/** What a subscriber of the scripted browser is told: the differences between
    polls, with removals held back for one poll. */
module ChromeStream {
  import opened BrowserTypes
  import opened ChromeScript

  datatype Event = Created(id: string) | TabsChanged(id: string) | Removed(id: string) | Focus(id: string)

  const MAX_POLL_ERRORS := 3

  function Ids(windows: seq<ReadWindow>): set<string> {
    set w | w in windows :: w.id
  }

  predicate DistinctIds(windows: seq<ReadWindow>) {
    forall i, j :: 0 <= i < j < |windows| ==> windows[i].id != windows[j].id
  }

  /** The last window with that id. */
  function Find(windows: seq<ReadWindow>, id: string): Option<ReadWindow> {
    if windows == [] then None
    else if windows[|windows| - 1].id == id then Some(windows[|windows| - 1])
    else Find(windows[..|windows| - 1], id)
  }

  /** The focused window, unless the browser is in the background. */
  function FocusedId(s: Snapshot): string {
    if s.frontmost then FirstFocused(s.windows) else ""
  }

  function FirstFocused(windows: seq<ReadWindow>): string {
    if windows == [] then "" else if windows[0].focused then windows[0].id else FirstFocused(windows[1..])
  }

  // --- the difference of two polls -------------------------------------------------

  function Change(prev: seq<ReadWindow>, w: ReadWindow): seq<Event> {
    var was := Find(prev, w.id);
    if was.None? then [Created(w.id)]
    else if was.value.tabs != w.tabs then [TabsChanged(w.id)]
    else []
  }

  function Changes(prev: seq<ReadWindow>, cur: seq<ReadWindow>): seq<Event> {
    if cur == [] then [] else Changes(prev, cur[..|cur| - 1]) + Change(prev, cur[|cur| - 1])
  }

  function Removals(prev: seq<ReadWindow>, cur: seq<ReadWindow>): seq<Event> {
    if prev == [] then []
    else
      var w := prev[|prev| - 1];
      Removals(prev[..|prev| - 1], cur) + if w.id in Ids(cur) then [] else [Removed(w.id)]
  }

  function FocusChange(prev: Snapshot, cur: Snapshot): seq<Event> {
    if FocusedId(cur) != "" && FocusedId(cur) != FocusedId(prev) then [Focus(FocusedId(cur))] else []
  }

  function Diff(prev: Snapshot, cur: Snapshot): seq<Event> {
    Changes(prev.windows, cur.windows) + Removals(prev.windows, cur.windows) + FocusChange(prev, cur)
  }

  method ComputeFocusedId(s: Snapshot) returns (id: string)
    ensures id == FocusedId(s)
  {
    if !s.frontmost {
      return "";
    }
    for i := 0 to |s.windows|
      invariant FirstFocused(s.windows) == FirstFocused(s.windows[i..])
    {
      if s.windows[i].focused {
        return s.windows[i].id;
      }
    }
    id := "";
  }

  /** The windows by id. */
  method Index(windows: seq<ReadWindow>) returns (before: map<string, ReadWindow>)
    ensures forall id :: Find(windows, id) == if id in before then Some(before[id]) else None
  {
    before := map[];
    for i := 0 to |windows|
      invariant forall id :: Find(windows[..i], id) == if id in before then Some(before[id]) else None
    {
      assert windows[..i + 1][..i] == windows[..i];
      before := before[windows[i].id := windows[i]];
    }
    assert windows[..|windows|] == windows;
  }

  method ComputeDiff(prev: Snapshot, cur: Snapshot) returns (events: seq<Event>)
    ensures events == Diff(prev, cur)
  {
    var seen;
    events, seen := CollectChanges(prev.windows, cur.windows);
    var gone := CollectRemovals(prev.windows, cur.windows, seen);
    events := events + gone;
    var focused := ComputeFocusedId(cur);
    var was := ComputeFocusedId(prev);
    if focused != "" && focused != was {
      events := events + [Focus(focused)];
    }
  }

  method CollectChanges(prev: seq<ReadWindow>, cur: seq<ReadWindow>) returns (events: seq<Event>, seen: set<string>)
    ensures events == Changes(prev, cur) && seen == Ids(cur)
  {
    var before := Index(prev);
    events, seen := [], {};
    for i := 0 to |cur|
      invariant events == Changes(prev, cur[..i]) && seen == Ids(cur[..i])
    {
      OneMoreWindow(prev, cur, i);
      var told := CollectChange(prev, before, cur[i]);
      seen := seen + {cur[i].id};
      events := events + told;
    }
    assert cur[..|cur|] == cur;
  }

  method CollectChange(ghost prev: seq<ReadWindow>, before: map<string, ReadWindow>, w: ReadWindow)
    returns (told: seq<Event>)
    requires forall id :: Find(prev, id) == if id in before then Some(before[id]) else None
    ensures told == Change(prev, w)
  {
    told := [];
    if w.id !in before {
      told := [Created(w.id)];
    } else if before[w.id].tabs != w.tabs {
      told := [TabsChanged(w.id)];
    }
  }

  lemma OneMoreWindow(prev: seq<ReadWindow>, cur: seq<ReadWindow>, i: nat)
    requires i < |cur|
    ensures Changes(prev, cur[..i + 1]) == Changes(prev, cur[..i]) + Change(prev, cur[i])
    ensures Ids(cur[..i + 1]) == Ids(cur[..i]) + {cur[i].id}
  {
    assert cur[..i + 1][..i] == cur[..i];
    assert cur[..i + 1] == cur[..i] + [cur[i]];
  }

  method CollectRemovals(prev: seq<ReadWindow>, ghost cur: seq<ReadWindow>, seen: set<string>)
    returns (events: seq<Event>)
    requires seen == Ids(cur)
    ensures events == Removals(prev, cur)
  {
    events := [];
    for i := 0 to |prev|
      invariant events == Removals(prev[..i], cur)
    {
      assert prev[..i + 1][..i] == prev[..i];
      if prev[i].id !in seen {
        events := events + [Removed(prev[i].id)];
      }
    }
    assert prev[..|prev|] == prev;
  }

  lemma {:induction false} FindIff(windows: seq<ReadWindow>, id: string)
    ensures Find(windows, id).Some? <==> id in Ids(windows)
    ensures Find(windows, id).Some? ==> Find(windows, id).value in windows && Find(windows, id).value.id == id
  {
    if windows != [] {
      var init := windows[..|windows| - 1];
      assert forall w :: w in windows <==> w in init || w == windows[|windows| - 1];
      FindIff(init, id);
    }
  }

  lemma {:induction false} ChangesIff(prev: seq<ReadWindow>, cur: seq<ReadWindow>, e: Event)
    ensures e in Changes(prev, cur) <==> exists w :: w in cur && e in Change(prev, w)
  {
    if cur != [] {
      var init := cur[..|cur| - 1];
      assert forall w :: w in cur <==> w in init || w == cur[|cur| - 1];
      ChangesIff(prev, init, e);
    }
  }

  lemma {:induction false} RemovalsIff(prev: seq<ReadWindow>, cur: seq<ReadWindow>, e: Event)
    ensures e in Removals(prev, cur) <==> e.Removed? && e.id in Ids(prev) && e.id !in Ids(cur)
  {
    if prev != [] {
      var init := prev[..|prev| - 1];
      assert forall w :: w in prev <==> w in init || w == prev[|prev| - 1];
      RemovalsIff(init, cur, e);
    }
  }

  /** A difference creates, removes and changes exactly the right windows. */
  lemma DiffIsExact(prev: Snapshot, cur: Snapshot, id: string)
    ensures Created(id) in Diff(prev, cur) <==> id in Ids(cur.windows) && id !in Ids(prev.windows)
    ensures Removed(id) in Diff(prev, cur) <==> id in Ids(prev.windows) && id !in Ids(cur.windows)
    ensures TabsChanged(id) in Diff(prev, cur) <==>
            && Find(prev.windows, id).Some?
            && exists w :: w in cur.windows && w.id == id && w.tabs != Find(prev.windows, id).value.tabs
    ensures Focus(id) in Diff(prev, cur) <==> id != "" && FocusedId(cur) == id && FocusedId(prev) != id
  {
    CreatedIff(prev, cur, id);
    TabsChangedIff(prev, cur, id);
    RemovedOrFocusedIff(prev, cur, id);
  }

  lemma CreatedIff(prev: Snapshot, cur: Snapshot, id: string)
    ensures Created(id) in Diff(prev, cur) <==> id in Ids(cur.windows) && id !in Ids(prev.windows)
  {
    InDiff(prev, cur, Created(id));
    ChangesIff(prev.windows, cur.windows, Created(id));
    FindIff(prev.windows, id);
  }

  lemma TabsChangedIff(prev: Snapshot, cur: Snapshot, id: string)
    ensures TabsChanged(id) in Diff(prev, cur) <==>
            && Find(prev.windows, id).Some?
            && exists w :: w in cur.windows && w.id == id && w.tabs != Find(prev.windows, id).value.tabs
  {
    InDiff(prev, cur, TabsChanged(id));
    ChangesIff(prev.windows, cur.windows, TabsChanged(id));
  }

  lemma RemovedOrFocusedIff(prev: Snapshot, cur: Snapshot, id: string)
    ensures Removed(id) in Diff(prev, cur) <==> id in Ids(prev.windows) && id !in Ids(cur.windows)
    ensures Focus(id) in Diff(prev, cur) <==> id != "" && FocusedId(cur) == id && FocusedId(prev) != id
  {
    InDiff(prev, cur, Removed(id));
    InDiff(prev, cur, Focus(id));
    ChangesIff(prev.windows, cur.windows, Removed(id));
    ChangesIff(prev.windows, cur.windows, Focus(id));
  }

  lemma InDiff(prev: Snapshot, cur: Snapshot, e: Event)
    ensures e in Diff(prev, cur) <==>
            (|| e in Changes(prev.windows, cur.windows) || e in FocusChange(prev, cur)
             || (e.Removed? && e.id in Ids(prev.windows) && e.id !in Ids(cur.windows)))
  {
    RemovalsIff(prev.windows, cur.windows, e);
  }

  // --- the stream -----------------------------------------------------------------------

  /** A poll: it fails, or finds the browser gone or restarted, or a snapshot. */
  datatype Poll = Failing | Gone | Found(cur: Snapshot)

  datatype Stream = Stream(prev: Snapshot, removed: seq<Event>, failures: nat, ended: bool, delivered: seq<Event>)

  function Kept(events: seq<Event>): seq<Event> {
    if events == [] then []
    else Kept(events[..|events| - 1]) + if events[|events| - 1].Removed? then [] else [events[|events| - 1]]
  }

  function HeldBack(events: seq<Event>): seq<Event> {
    if events == [] then []
    else HeldBack(events[..|events| - 1]) + if events[|events| - 1].Removed? then [events[|events| - 1]] else []
  }

  function Next(s: Stream, p: Poll): Stream {
    if s.ended then s
    else match p
      case Failing => s.(failures := s.failures + 1, ended := s.failures + 1 >= MAX_POLL_ERRORS)
      case Gone => s.(failures := 0, ended := true)
      case Found(cur) =>
        var events := Diff(s.prev, cur);
        Stream(cur, HeldBack(events), 0, false, s.delivered + s.removed + Kept(events))
  }

  function Run(first: Snapshot, polls: seq<Poll>): Stream {
    if polls == [] then Stream(first, [], 0, false, [])
    else Next(Run(first, polls[..|polls| - 1]), polls[|polls| - 1])
  }

  class Subscription {
    var prev: Snapshot
    var removed: seq<Event>
    var failures: nat
    var ended: bool
    ghost var delivered: seq<Event>

    ghost function View(): Stream
      reads this
    {
      Stream(prev, removed, failures, ended, delivered)
    }

    constructor (first: Snapshot)
      ensures View() == Run(first, [])
    {
      prev, removed, failures, ended, delivered := first, [], 0, false, [];
    }

    method Deliver(e: Event)
      modifies this`delivered
      ensures delivered == old(delivered) + [e]
    {
      delivered := delivered + [e];
    }

    method TakePoll(p: Poll)
      requires !ended
      modifies this
      ensures View() == Next(old(View()), p)
    {
      if p.Failing? {
        failures := failures + 1;
        ended := failures >= MAX_POLL_ERRORS;
        return;
      }
      failures := 0;
      if p.Gone? {
        ended := true;
        return;
      }
      DeliverAll(removed);
      removed := [];
      var events := ComputeDiff(prev, p.cur);
      DeliverKept(events);
      prev := p.cur;
    }

    method DeliverAll(events: seq<Event>)
      modifies this`delivered
      ensures delivered == old(delivered) + events
    {
      for i := 0 to |events|
        invariant delivered == old(delivered) + events[..i]
      {
        Deliver(events[i]);
      }
      assert events[..|events|] == events;
    }

    /** Delivers all but the removals, which are held back. */
    method DeliverKept(events: seq<Event>)
      requires removed == []
      modifies this`delivered, this`removed
      ensures delivered == old(delivered) + Kept(events) && removed == HeldBack(events)
    {
      for i := 0 to |events|
        invariant delivered == old(delivered) + Kept(events[..i]) && removed == HeldBack(events[..i])
      {
        assert events[..i + 1][..i] == events[..i];
        if events[i].Removed? {
          removed := removed + [events[i]];
          continue;
        }
        Deliver(events[i]);
      }
      assert events[..|events|] == events;
    }
  }

  /** The windows one knows of after the events, having started from `ids`. */
  function Rebuilt(ids: set<string>, events: seq<Event>): set<string> {
    if events == [] then ids
    else
      var known, e := Rebuilt(ids, events[..|events| - 1]), events[|events| - 1];
      match e
      case Created(id) => known + {id}
      case Removed(id) => known - {id}
      case _ => known
  }

  function Vanished(events: seq<Event>): set<string> {
    set e | e in events && e.Removed? :: e.id
  }

  lemma {:induction false} RebuiltAppend(ids: set<string>, a: seq<Event>, b: seq<Event>)
    ensures Rebuilt(ids, a + b) == Rebuilt(Rebuilt(ids, a), b)
  {
    if b == [] {
      assert a + b == a;
    } else {
      assert (a + b)[..|a + b| - 1] == a + b[..|b| - 1];
      RebuiltAppend(ids, a, b[..|b| - 1]);
    }
  }

  lemma {:induction false} RebuiltRemovals(ids: set<string>, events: seq<Event>)
    requires forall e :: e in events ==> e.Removed?
    ensures Rebuilt(ids, events) == ids - Vanished(events)
  {
    if events != [] {
      var init, e := events[..|events| - 1], events[|events| - 1];
      assert forall x :: x in events <==> x in init || x == e;
      RebuiltRemovals(ids, init);
      assert Vanished(events) == Vanished(init) + {e.id};
    }
  }

  function Newcomers(events: seq<Event>): set<string> {
    set e | e in events && e.Created? :: e.id
  }

  lemma {:induction false} RebuiltKept(ids: set<string>, events: seq<Event>)
    requires forall e :: e in events ==> !e.Removed?
    ensures Rebuilt(ids, events) == ids + Newcomers(events)
  {
    if events != [] {
      var init, e := events[..|events| - 1], events[|events| - 1];
      assert forall x :: x in events <==> x in init || x == e;
      RebuiltKept(ids, init);
      assert Newcomers(events) == Newcomers(init) + if e.Created? then {e.id} else {};
    }
  }

  lemma {:induction false} SortedOut(events: seq<Event>, e: Event)
    ensures e in Kept(events) <==> e in events && !e.Removed?
    ensures e in HeldBack(events) <==> e in events && e.Removed?
  {
    if events != [] {
      var init := events[..|events| - 1];
      assert forall x :: x in events <==> x in init || x == events[|events| - 1];
      SortedOut(init, e);
    }
  }

  /** What the subscriber knows: the current windows and those that vanished in
      the last difference, which it will be told next. */
  ghost predicate Informed(first: Snapshot, s: Stream) {
    && (forall e :: e in s.removed ==> e.Removed?)
    && Vanished(s.removed) !! Ids(s.prev.windows)
    && Rebuilt(Ids(first.windows), s.delivered) == Ids(s.prev.windows) + Vanished(s.removed)
  }

  lemma DiffSets(prev: Snapshot, cur: Snapshot)
    ensures var events := Diff(prev, cur);
            && Newcomers(Kept(events)) == Ids(cur.windows) - Ids(prev.windows)
            && Vanished(HeldBack(events)) == Ids(prev.windows) - Ids(cur.windows)
    ensures forall e :: e in HeldBack(Diff(prev, cur)) ==> e.Removed?
    ensures forall e :: e in Kept(Diff(prev, cur)) ==> !e.Removed?
  {
    var events := Diff(prev, cur);
    forall e ensures e in HeldBack(events) <==> e in events && e.Removed? {
      SortedOut(events, e);
    }
    forall e ensures e in Kept(events) <==> e in events && !e.Removed? {
      SortedOut(events, e);
    }
    forall id ensures id in Newcomers(Kept(events)) <==> id in Ids(cur.windows) && id !in Ids(prev.windows) {
      DiffIsExact(prev, cur, id);
      assert id in Newcomers(Kept(events)) <==> Created(id) in Kept(events);
    }
    forall id ensures id in Vanished(HeldBack(events)) <==> id in Ids(prev.windows) && id !in Ids(cur.windows) {
      DiffIsExact(prev, cur, id);
      assert id in Vanished(HeldBack(events)) <==> Removed(id) in HeldBack(events);
    }
  }

  lemma FoundKeepsInformed(first: Snapshot, s: Stream, cur: Snapshot)
    requires Informed(first, s) && !s.ended
    ensures Informed(first, Next(s, Found(cur)))
  {
    var ids, events := Ids(first.windows), Diff(s.prev, cur);
    DiffSets(s.prev, cur);
    RebuiltAppend(ids, s.delivered, s.removed);
    RebuiltRemovals(Rebuilt(ids, s.delivered), s.removed);
    RebuiltAppend(ids, s.delivered + s.removed, Kept(events));
    RebuiltKept(Rebuilt(ids, s.delivered + s.removed), Kept(events));
  }

  /** In every sequence of polls, failed ones among them, the windows rebuilt
      from the delivered events are the current ones and exactly those that
      vanished in the last difference. */
  lemma {:induction false} RunKeepsInformed(first: Snapshot, polls: seq<Poll>)
    ensures Informed(first, Run(first, polls))
  {
    if polls == [] {
      assert Vanished([]) == {};
    } else {
      var s, p := Run(first, polls[..|polls| - 1]), polls[|polls| - 1];
      RunKeepsInformed(first, polls[..|polls| - 1]);
      if p.Found? && !s.ended {
        FoundKeepsInformed(first, s, p.cur);
      }
    }
  }

  // --- order, and the end ---------------------------------------------------------------

  /** A window is known as it was listed last. */
  lemma {:induction false} FindIsLast(windows: seq<ReadWindow>, k: nat)
    requires k < |windows| && forall j :: k < j < |windows| ==> windows[j].id != windows[k].id
    ensures Find(windows, windows[k].id) == Some(windows[k])
  {
    if k < |windows| - 1 {
      FindIsLast(windows[..|windows| - 1], k);
    }
  }

  lemma {:induction false} FirstFocusedIs(windows: seq<ReadWindow>)
    ensures (forall w :: w in windows ==> !w.focused) ==> FirstFocused(windows) == ""
    ensures forall k :: 0 <= k < |windows| && windows[k].focused && (forall j :: 0 <= j < k ==> !windows[j].focused) ==>
              FirstFocused(windows) == windows[k].id
  {
    if windows != [] {
      FirstFocusedIs(windows[1..]);
      assert forall k :: 0 < k < |windows| ==> windows[k] == windows[1..][k - 1];
      assert windows[0] in windows;
      forall k | 0 <= k < |windows| && windows[k].focused && (forall j :: 0 <= j < k ==> !windows[j].focused)
        ensures FirstFocused(windows) == windows[k].id
      {
        if k > 0 {
          assert !windows[0].focused && windows[1..][k - 1].focused;
          assert forall j :: 0 <= j < k - 1 ==> windows[1..][j] == windows[j + 1];
        }
      }
    }
  }

  /** The focus is with the first focused window of a browser in front. */
  lemma FocusedIs(s: Snapshot, k: nat)
    ensures !s.frontmost || (forall w :: w in s.windows ==> !w.focused) ==> FocusedId(s) == ""
    ensures s.frontmost && k < |s.windows| && s.windows[k].focused && (forall j :: 0 <= j < k ==> !s.windows[j].focused)
            ==> FocusedId(s) == s.windows[k].id
  {
    FirstFocusedIs(s.windows);
  }

  /** One event, or none, says how the window differs. */
  lemma {:induction false} ChangesInOrder(prev: seq<ReadWindow>, cur: seq<ReadWindow>) returns (order: seq<nat>)
    ensures Increasing(order) && |order| == |Changes(prev, cur)|
    ensures forall i :: 0 <= i < |order| ==>
              order[i] < |cur| && Changes(prev, cur)[i] in {Created(cur[order[i]].id), TabsChanged(cur[order[i]].id)}
  {
    order := [];
    if cur != [] {
      var n := |cur| - 1;
      var before := ChangesInOrder(prev, cur[..n]);
      order := WithPosition(before, n, Change(prev, cur[n]) != []);
      PositionAdded(before, n, Change(prev, cur[n]) != []);
    }
  }

  lemma {:induction false} RemovalsInOrder(prev: seq<ReadWindow>, cur: seq<ReadWindow>) returns (order: seq<nat>)
    ensures Increasing(order) && |order| == |Removals(prev, cur)|
    ensures forall i :: 0 <= i < |order| ==> order[i] < |prev| && Removals(prev, cur)[i] == Removed(prev[order[i]].id)
  {
    order := [];
    if prev != [] {
      var n := |prev| - 1;
      var before := RemovalsInOrder(prev[..n], cur);
      order := WithPosition(before, n, prev[n].id !in Ids(cur));
      PositionAdded(before, n, prev[n].id !in Ids(cur));
    }
  }

  /** The events say nothing of removed windows. */
  predicate NoRemovals(events: seq<Event>) {
    forall e :: e in events ==> !e.Removed?
  }

  predicate OnlyRemovals(events: seq<Event>) {
    forall e :: e in events ==> e.Removed?
  }

  lemma {:induction false} AllKept(events: seq<Event>)
    requires NoRemovals(events)
    ensures Kept(events) == events && HeldBack(events) == []
  {
    if events != [] {
      var init, e := events[..|events| - 1], events[|events| - 1];
      assert events == init + [e];
      AllKept(init);
    }
  }

  lemma {:induction false} NoneKept(events: seq<Event>)
    requires OnlyRemovals(events)
    ensures Kept(events) == [] && HeldBack(events) == events
  {
    if events != [] {
      var init, e := events[..|events| - 1], events[|events| - 1];
      assert events == init + [e];
      NoneKept(init);
    }
  }

  lemma {:induction false} SortedOutBoth(a: seq<Event>, b: seq<Event>)
    ensures Kept(a + b) == Kept(a) + Kept(b) && HeldBack(a + b) == HeldBack(a) + HeldBack(b)
  {
    if b == [] {
      assert a + b == a;
    } else {
      assert (a + b)[..|a + b| - 1] == a + b[..|b| - 1];
      SortedOutBoth(a, b[..|b| - 1]);
    }
  }

  lemma NothingAdded(events: seq<Event>)
    ensures events + [] == events && [] + events == events
  {
  }

  lemma SortedOutThree(a: seq<Event>, b: seq<Event>, c: seq<Event>)
    requires NoRemovals(a) && OnlyRemovals(b) && NoRemovals(c)
    ensures Kept(a + b + c) == a + c && HeldBack(a + b + c) == b
  {
    AllKept(a);
    NoneKept(b);
    AllKept(c);
    SortedOutBoth(a, b);
    NothingAdded(a);
    NothingAdded(b);
    SortedOutBoth(a + b, c);
  }

  lemma DiffSortedOut(prev: Snapshot, cur: Snapshot)
    ensures Kept(Diff(prev, cur)) == Changes(prev.windows, cur.windows) + FocusChange(prev, cur)
    ensures HeldBack(Diff(prev, cur)) == Removals(prev.windows, cur.windows)
  {
    var changes, removals := Changes(prev.windows, cur.windows), Removals(prev.windows, cur.windows);
    forall e | e in changes ensures !e.Removed? {
      ChangesIff(prev.windows, cur.windows, e);
    }
    forall e | e in removals ensures e.Removed? {
      RemovalsIff(prev.windows, cur.windows, e);
    }
    SortedOutThree(changes, removals, FocusChange(prev, cur));
  }

  /** A poll tells, in this order, the removals the poll before it found, the new
      and changed windows as listed, and the focus; the removals it finds, in the
      order they were listed before, it tells with the next. */
  lemma PollTells(s: Stream, cur: Snapshot) returns (news: seq<Event>, order: seq<nat>, gone: seq<nat>)
    requires !s.ended
    ensures var t := Next(s, Found(cur));
            && !t.ended && t.prev == cur && t.delivered == s.delivered + s.removed + news
            && Increasing(order) && |order| <= |news| <= |order| + 1
            && (forall i :: 0 <= i < |order| ==>
                  order[i] < |cur.windows|
                  && news[i] in {Created(cur.windows[order[i]].id), TabsChanged(cur.windows[order[i]].id)})
            && (|news| == |order| + 1 ==> news[|order|] == Focus(FocusedId(cur)))
            && Increasing(gone) && |t.removed| == |gone|
            && (forall i :: 0 <= i < |gone| ==>
                  gone[i] < |s.prev.windows| && t.removed[i] == Removed(s.prev.windows[gone[i]].id))
  {
    DiffSortedOut(s.prev, cur);
    news := Kept(Diff(s.prev, cur));
    order := ChangesInOrder(s.prev.windows, cur.windows);
    gone := RemovalsInOrder(s.prev.windows, cur.windows);
  }

  /** Poll `k` ends the stream: the browser is gone, or it is the third in a row
      that fails. */
  predicate EndsAt(polls: seq<Poll>, k: nat)
    requires k < |polls|
  {
    polls[k].Gone? || (k >= 2 && polls[k].Failing? && polls[k - 1].Failing? && polls[k - 2].Failing?)
  }

  ghost predicate EndsSomewhere(polls: seq<Poll>) {
    exists k :: 0 <= k < |polls| && EndsAt(polls, k)
  }

  lemma EndsLater(polls: seq<Poll>)
    requires polls != []
    ensures EndsSomewhere(polls) <==> EndsSomewhere(polls[..|polls| - 1]) || EndsAt(polls, |polls| - 1)
  {
    var n := |polls| - 1;
    forall k | 0 <= k < n ensures EndsAt(polls, k) <==> EndsAt(polls[..n], k) {}
  }

  /** How many polls failed last, in a row. */
  function FailingLast(polls: seq<Poll>): nat {
    if polls == [] || !polls[|polls| - 1].Failing? then 0 else FailingLast(polls[..|polls| - 1]) + 1
  }

  lemma {:induction false} FailingLastIs(polls: seq<Poll>)
    ensures FailingLast(polls) <= |polls|
    ensures forall i :: |polls| - FailingLast(polls) <= i < |polls| ==> polls[i].Failing?
    ensures FailingLast(polls) < |polls| ==> !polls[|polls| - FailingLast(polls) - 1].Failing?
  {
    if polls != [] {
      FailingLastIs(polls[..|polls| - 1]);
    }
  }

  lemma {:induction false} CountsFailures(first: Snapshot, polls: seq<Poll>)
    ensures !Run(first, polls).ended ==> Run(first, polls).failures == FailingLast(polls) < 3
  {
    if polls != [] {
      CountsFailures(first, polls[..|polls| - 1]);
    }
  }

  /** The stream has ended exactly if some poll found the browser gone or was the
      third in a row that failed. */
  lemma {:induction false} EndedIff(first: Snapshot, polls: seq<Poll>)
    ensures Run(first, polls).ended <==> EndsSomewhere(polls)
  {
    if polls != [] {
      var n := |polls| - 1;
      EndedIff(first, polls[..n]);
      EndsLater(polls);
      if !Run(first, polls[..n]).ended {
        CountsFailures(first, polls[..n]);
        FailingLastIs(polls[..n]);
        LastEnds(first, polls);
      }
    }
  }

  lemma LastEnds(first: Snapshot, polls: seq<Poll>)
    requires polls != [] && !Run(first, polls[..|polls| - 1]).ended
    requires Run(first, polls[..|polls| - 1]).failures == FailingLast(polls[..|polls| - 1]) < 3
    ensures Run(first, polls).ended <==> EndsAt(polls, |polls| - 1)
  {
    var n := |polls| - 1;
    FailingLastIs(polls[..n]);
    if polls[n].Failing? && n >= 2 && polls[n - 1].Failing? && polls[n - 2].Failing? {
      assert polls[..n][n - 1].Failing? && polls[..n][n - 2].Failing?;
      assert FailingLast(polls[..n]) != 0 && FailingLast(polls[..n]) != 1;
    }
  }
}
