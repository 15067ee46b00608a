/** What users and sessions ask of the browser service: restoring a session's
    windows, opening and holding URLs, ejecting windows and moving tabs. */
module BrowserRequests {
  import opened BrowserTypes
  import opened BrowserTabs
  import opened WindowTable
  import opened BrowserStore
  import opened BrowserDriver
  import opened BrowserEffects
  import opened BrowserService
  import Link
  import Placement

  /** Only rows of the session changed, came or went. */
  ghost predicate Confined(rows: Table, rows': Table, session: SessionId) {
    && (forall id :: id in rows && rows[id].session != session ==> id in rows' && rows'[id] == rows[id])
    && (forall id :: id in rows' && rows'[id].session != session ==> id in rows && rows'[id] == rows[id])
  }

  /** Every owner stays, and only windows not seen before found new ones. */
  ghost predicate Expands(rows: Table, rows': Table, known: set<WindowId>) {
    && StillOpen(rows, rows') && Keeps(rows, rows')
    && (forall w :: w in Owned(rows') ==> w in Owned(rows) || w !in known)
  }

  ghost predicate Extends(rows: Table, rows': Table, known: set<WindowId>, session: SessionId) {
    Expands(rows, rows', known) && Confined(rows, rows', session)
  }

  lemma ExpandsTwice(a: Table, b: Table, c: Table, known: set<WindowId>, known': set<WindowId>)
    requires Expands(a, b, known) && Expands(b, c, known') && known <= known'
    ensures Expands(a, c, known)
  {
  }

  lemma ExtendsTwice(a: Table, b: Table, c: Table, known: set<WindowId>, known': set<WindowId>, session: SessionId)
    requires Extends(a, b, known, session) && Extends(b, c, known', session) && known <= known'
    ensures Extends(a, c, known, session)
  {
  }

  lemma StillOwned(rows: Table, rows': Table, w: WindowId, session: SessionId)
    requires StillOpen(rows, rows') && OwnedBy(rows, w, session)
    ensures OwnedBy(rows', w, session)
  {
  }

  function SavedUrls(tabs: seq<SavedTab>): seq<Url> {
    seq(|tabs|, i requires 0 <= i < |tabs| => tabs[i].url)
  }

  // --- restoring -----------------------------------------------------------------

  /** Opens a new window on all saved URLs of a row and gives it to the row. */
  method RestoreRow(s: Service, r: Stored) returns (w: Option<Window>)
    requires s.Valid() && r.id in s.store.rows && s.store.rows[r.id] == r.row && !r.row.state.Open?
    modifies s.store, s.driver`known, s.driver`listings, s.driver`requested, s`snapshots, s`closing, s.driver`commands
    ensures s.Valid() && s.Grew()
    ensures w.None? ==> s.store.rows == old(s.store.rows)
    ensures w.Some? ==> s.store.rows == WithReopened(old(s.store.rows), r.id, w.value.id, r.row.focusedAt)
    ensures w.Some? ==> w.value.id !in old(s.driver.known) && w.value.id in s.driver.known && w.value.id != ""
    ensures w.Some? ==>
              w.value.id in s.driver.requested && s.driver.requested[w.value.id] == FromUrls(SavedUrls(r.row.tabs))
    ensures w.Some? ==>
              Restored(old(s.store.rows), s.store.rows, w.value.id) && OwnedBy(s.store.rows, w.value.id, r.row.session)
    ensures KeepsOrigins(old(s.driver.requested), s.driver.requested, old(s.driver.known))
    ensures w.Some? ==> s.driver.commands == old(s.driver.commands)
    ensures s.Reliable() ==> w.Some?
  {
    w := None;
    var live := s.List();
    if live.Some? {
      w := OpenForRow(s, r);
    }
  }

  method OpenForRow(s: Service, r: Stored) returns (w: Option<Window>)
    requires s.Valid() && r.id in s.store.rows && s.store.rows[r.id] == r.row && !r.row.state.Open?
    modifies s.store, s.driver`known, s.driver`requested, s`snapshots, s`closing, s.driver`commands
    ensures s.Valid() && s.Grew()
    ensures w.None? ==> s.store.rows == old(s.store.rows)
    ensures w.Some? ==> s.store.rows == WithReopened(old(s.store.rows), r.id, w.value.id, r.row.focusedAt)
    ensures w.Some? ==> w.value.id !in old(s.driver.known) && w.value.id in s.driver.known && w.value.id != ""
    ensures w.Some? ==>
              w.value.id in s.driver.requested && s.driver.requested[w.value.id] == FromUrls(SavedUrls(r.row.tabs))
    ensures w.Some? ==> Restored(old(s.store.rows), s.store.rows, w.value.id)
    ensures KeepsOrigins(old(s.driver.requested), s.driver.requested, old(s.driver.known))
    ensures w.Some? ==> s.driver.commands == old(s.driver.commands)
    ensures s.Reliable() ==> w.Some?
  {
    w := s.driver.NewWindow(FromUrls(SavedUrls(r.row.tabs)));
    if w.Some? {
      var ok := s.ReopenRow(r.id, w.value.id, r.row.focusedAt);
      if !ok {
        var _ := s.CloseWindow(w.value.id);
        w := None;
      }
    }
  }

  /** One restorable row: forgotten when it has nothing to show, else opened in
      a window of its own whose tabs are saved at once. */
  method RestoreOne(s: Service, r: Stored) returns (ok: bool, w: Option<Window>)
    requires s.Valid() && r.id in s.store.rows && s.store.rows[r.id] == r.row && !r.row.state.Open?
    modifies s.store, s.driver`known, s.driver`listings, s.driver`requested, s`snapshots, s`closing, s.driver`commands
    modifies s`clock
    ensures s.Valid() && s.Grew() && old(s.clock) <= s.clock
    ensures RestoredAt(old(s.store.rows), s.store.rows, old(s.driver.known), r.id, ok)
    ensures OpenedAt(old(s.store.rows), s.store.rows, s.driver.requested, old(s.driver.known), s.driver.known, r.id, w)
    ensures KeepsOrigins(old(s.driver.requested), s.driver.requested, old(s.driver.known))
    ensures ok && r.row.tabs != [] ==> w.Some?
    ensures w.Some? ==> s.driver.commands == old(s.driver.commands) + ActivationOf(r.row.tabs, w.value, |r.row.tabs|)
    ensures ok && w.Some? ==> ShownAndSaved(old(s.store.rows), s.store.rows, s.driver, r, w.value.id, s.clock)
    ensures s.Reliable() ==> ok
  {
    w := None;
    if |r.row.tabs| == 0 {
      ok := DeleteEmpty(s, r);
    } else {
      ok, w := RestoreTabs(s, r);
    }
  }

  method RestoreTabs(s: Service, r: Stored) returns (ok: bool, w: Option<Window>)
    requires s.Valid() && r.id in s.store.rows && s.store.rows[r.id] == r.row && !r.row.state.Open? && r.row.tabs != []
    modifies s.store, s.driver`known, s.driver`listings, s.driver`requested, s`snapshots, s`closing, s.driver`commands
    modifies s`clock
    ensures s.Valid() && s.Grew()
    ensures RestoredAt(old(s.store.rows), s.store.rows, old(s.driver.known), r.id, ok)
    ensures OpenedAt(old(s.store.rows), s.store.rows, s.driver.requested, old(s.driver.known), s.driver.known, r.id, w)
    ensures KeepsOrigins(old(s.driver.requested), s.driver.requested, old(s.driver.known))
    ensures ok ==> w.Some?
    ensures w.Some? ==> s.driver.commands == old(s.driver.commands) + ActivationOf(r.row.tabs, w.value, |r.row.tabs|)
    ensures ok ==> ShownAndSaved(old(s.store.rows), s.store.rows, s.driver, r, w.value.id, s.clock)
    ensures s.Reliable() ==> ok
  {
    w := RestoreRow(s, r);
    ok := w.Some?;
    if ok {
      ghost var before := s.store.rows;
      s.store.Tidy();
      ok := ShowRestored(s, r.row, w.value);
      RestoredThenShown(old(s.store.rows), before, s.store.rows, old(s.driver.known), r.id, w.value.id,
                        r.row.focusedAt);
    }
  }

  /** The windows known before were created from what they were. */
  ghost predicate KeepsOrigins(requested: map<WindowId, Origin>, requested': map<WindowId, Origin>,
                               known: set<WindowId>) {
    forall w :: w in requested && w in known ==> w in requested' && requested'[w] == requested[w]
  }

  /** Row `id`, which was closed, is open in window `w`, created from its saved
      URLs. */
  ghost predicate OpenedRow(rows: Table, rows': Table, requested: map<WindowId, Origin>, w: WindowId, id: RowId) {
    id in rows && !rows[id].state.Open? && id in rows' && Holds(rows'[id], w) && rows'[id].session == rows[id].session
    && w in requested && requested[w] == FromUrls(SavedUrls(rows[id].tabs))
  }

  /** Row `id` is open in the new window `w`, or still closed without one. */
  ghost predicate OpenedAt(rows: Table, rows': Table, requested: map<WindowId, Origin>, known: set<WindowId>,
                           known': set<WindowId>, id: RowId, w: Option<Window>) {
    match w
    case Some(v) => OpenedRow(rows, rows', requested, v.id, id) && v.id !in known && v.id in known'
    case None => id in rows' ==> !rows'[id].state.Open?
  }

  /** The row was reopened in that window and holds what the latest listing
      shows there. */
  ghost predicate ShownAndSaved(rows: Table, rows': Table, d: Driver, r: Stored, w: WindowId, at: Time)
    reads d
  {
    d.listings != [] && rows' == Snapshotting(WithReopened(rows, r.id, w, r.row.focusedAt), LastSeen(d, w), at)
  }

  /** What the latest listing shows of the window. */
  ghost function LastSeen(d: Driver, w: WindowId): Option<Window>
    requires d.listings != []
    reads d
  {
    FirstListed(d.listings[|d.listings| - 1], w)
  }

  /** Activates the tab at the place of the row's active one, if the new window
      has it. */
  method ActivateSaved(s: Service, row: Row, w: Window) returns (ok: bool)
    modifies s.driver`commands
    ensures s.driver.commands == old(s.driver.commands) + ActivationOf(row.tabs, w, |row.tabs|)
    ensures ActivationOf(row.tabs, w, |row.tabs|) == [] ==> ok
    ensures s.Reliable() ==> ok
  {
    for i := 0 to |row.tabs|
      invariant s.driver.commands == old(s.driver.commands) && ActivationOf(row.tabs, w, i) == []
    {
      if row.tabs[i].active && i < |w.tabs| {
        ok := s.driver.Send(Activate(w.id, w.tabs[i].id));
        ActivationStays(row.tabs, w, i + 1, |row.tabs|);
        return;
      }
    }
    ok := true;
  }

  /** The command for the first active tab among the first `n` that has a live
      counterpart. */
  function ActivationOf(tabs: seq<SavedTab>, w: Window, n: nat): seq<Command>
    requires n <= |tabs|
  {
    if n == 0 then []
    else
      var before := ActivationOf(tabs, w, n - 1);
      if before == [] && tabs[n - 1].active && n - 1 < |w.tabs| then [Activate(w.id, w.tabs[n - 1].id)] else before
  }

  lemma {:induction false} ActivationStays(tabs: seq<SavedTab>, w: Window, n: nat, m: nat)
    requires n <= m <= |tabs| && ActivationOf(tabs, w, n) != []
    ensures ActivationOf(tabs, w, m) == ActivationOf(tabs, w, n)
  {
    if n < m {
      ActivationStays(tabs, w, n, m - 1);
    }
  }

  /** Activates the tab that was active and saves the new window's tabs. */
  method ShowRestored(s: Service, row: Row, w: Window) returns (ok: bool)
    requires s.Valid() && OwnedBy(s.store.rows, w.id, row.session)
    modifies s.store, s.driver`known, s.driver`listings, s.driver`commands, s`clock
    ensures s.Valid() && s.Grew() && old(s.clock) <= s.clock
    ensures Resaved(old(s.store.rows), s.store.rows) && OwnedBy(s.store.rows, w.id, row.session)
    ensures forall j :: j in old(s.store.rows) && !Holds(old(s.store.rows)[j], w.id) ==>
              s.store.rows[j] == old(s.store.rows)[j]
    ensures s.driver.commands == old(s.driver.commands) + ActivationOf(row.tabs, w, |row.tabs|)
    ensures ok ==>
              && s.driver.listings != []
              && s.store.rows == Snapshotting(old(s.store.rows), LastSeen(s.driver, w.id), s.clock)
    ensures s.Reliable() ==> ok
  {
    var activated := ActivateSaved(s, row, w);
    var saved, _ := s.Snapshot(w.id);
    StillOwned(old(s.store.rows), s.store.rows, w.id, row.session);
    ok := activated && saved;
  }

  method DeleteEmpty(s: Service, r: Stored) returns (ok: bool)
    requires s.Valid() && r.id in s.store.rows && s.store.rows[r.id] == r.row && !r.row.state.Open? && r.row.tabs == []
    modifies s.store
    ensures s.Valid() && s.Grew()
    ensures RestoredAt(old(s.store.rows), s.store.rows, s.driver.known, r.id, ok)
    ensures s.store.rows == if ok then old(s.store.rows) - {r.id} else old(s.store.rows)
    ensures s.Reliable() ==> ok
  {
    ReleaseEffects(s.store.rows, s.store.rows - {r.id});
    ok := s.store.Delete(r.id, Emptied(r.id));
  }

  /** Row `id`, which was not open, is now, or is gone if it had no tabs;
      nothing else changed. */
  ghost predicate RestoredAt(rows: Table, rows': Table, known: set<WindowId>, id: RowId, ok: bool) {
    && Expands(rows, rows', known) && id in rows
    && (forall j :: j in rows && j != id ==> j in rows' && rows'[j] == rows[j])
    && (forall j :: j in rows' ==> j in rows && rows'[j].session == rows[j].session)
    && (ok ==> id !in rows' || rows'[id].state.Open?)
  }

  lemma RestoredThenShown(a: Table, b: Table, c: Table, known: set<WindowId>, id: RowId, w: WindowId, at: Time)
    requires id in a && !a[id].state.Open? && Restored(a, b, w) && w !in known && Resaved(b, c)
    requires b == WithReopened(a, id, w, at)
    requires WellFormed(b)
    requires forall j :: j in b && !Holds(b[j], w) ==> c[j] == b[j]
    ensures RestoredAt(a, c, known, id, true)
  {
  }

  /** Opens every closed window of the session again, but leaves missing rows
      alone while they may still turn up by themselves. */
  method Restore(s: Service, session: SessionId) returns (ok: bool, restored: seq<Window>, ghost restoring: bool)
    requires s.Valid()
    modifies s.store, s.driver`known, s.driver`listings, s.driver`requested, s`snapshots, s`closing, s.driver`commands
    modifies s`clock, s`restoreUntil, s`placeStale
    ensures s.Valid() && s.Grew()
    ensures Extends(old(s.store.rows), s.store.rows, old(s.driver.known), session)
    ensures AllOwned(s.store.rows, session, old(s.driver.known), restored)
    ensures OpenedInOrder(old(s.store.rows), s.store.rows, s.driver.requested, restored)
    ensures s.store.rows.Keys <= old(s.store.rows).Keys
    ensures restoring ==> old(s.clock) < old(s.restoreUntil) && MissingSame(old(s.store.rows), s.store.rows)
    ensures ok && s.connected && s.clock < old(s.restoreUntil) && MissingRows(old(s.store.rows)) != {} ==> restoring
    ensures !s.connected ==> restored == [] && s.store.rows == old(s.store.rows)
    ensures ok && s.connected ==>
              forall id :: id in RestorableOf(s.store.rows, session) ==> restoring && s.store.rows[id].state.Missing?
    ensures s.Reliable() ==> ok
  {
    ok, restored, restoring := true, [], false;
    NothingOpened(s.store.rows, s.driver.requested);
    if s.connected {
      var rows := s.store.ListRestorable(session);
      ok := rows.Some?;
      if ok {
        var wait := s.Restoring();
        restoring := wait;
        ok, restored := RestoreRows(s, session, rows.value, wait);
        if |restored| > 0 {
          s.placeStale := true;
        }
      }
    }
  }

  ghost predicate MissingSame(rows: Table, rows': Table) {
    forall id :: id in rows && rows[id].state.Missing? ==> id in rows' && rows'[id] == rows[id]
  }

  method RestoreRows(s: Service, session: SessionId, rows: seq<Stored>, wait: bool)
    returns (ok: bool, restored: seq<Window>)
    requires s.Valid() && Lists(s.store.rows, RestorableOf(s.store.rows, session), rows) && ByRecency(rows)
    modifies s.store, s.driver`known, s.driver`listings, s.driver`requested, s`snapshots, s`closing, s.driver`commands
    modifies s`clock
    ensures s.Valid() && s.Grew() && old(s.clock) <= s.clock
    ensures Extends(old(s.store.rows), s.store.rows, old(s.driver.known), session)
    ensures wait ==> MissingSame(old(s.store.rows), s.store.rows)
    ensures AllOwned(s.store.rows, session, old(s.driver.known), restored)
    ensures OpenedInOrder(old(s.store.rows), s.store.rows, s.driver.requested, restored)
    ensures s.store.rows.Keys <= old(s.store.rows).Keys
    ensures ok ==> forall id :: id in RestorableOf(s.store.rows, session) ==> wait && s.store.rows[id].state.Missing?
    ensures s.Reliable() ==> ok
  {
    ok, restored := true, [];
    ghost var was, known := s.store.rows, s.driver.known;
    for i := 0 to |rows|
      invariant s.Reliable() ==> ok
      invariant s.Valid() && s.Grew() && old(s.clock) <= s.clock
      invariant RestoredSoFar(was, s.store.rows, known, s.driver.known, s.driver.requested, session, rows, i, wait,
                              restored, ok)
    {
      ok, restored := RestoreNext(s, was, known, session, rows, i, wait, ok, restored);
    }
    RestoringDone(was, s.store.rows, known, session, rows, wait, ok);
    AllOpened(was, s.store.rows, s.driver.requested, s.driver.known, known, session, rows, restored, wait, ok);
  }

  method RestoreNext(s: Service, ghost was: Table, ghost known: set<WindowId>, ghost session: SessionId,
                     rows: seq<Stored>, i: nat, wait: bool, before: bool, restored: seq<Window>)
    returns (ok: bool, more: seq<Window>)
    requires s.Valid() && Lists(was, RestorableOf(was, session), rows) && i < |rows| && known <= s.driver.known
    requires RestoredSoFar(was, s.store.rows, known, s.driver.known, s.driver.requested, session, rows, i, wait,
                           restored, before)
    modifies s.store, s.driver`known, s.driver`listings, s.driver`requested, s`snapshots, s`closing, s.driver`commands
    modifies s`clock
    ensures s.Valid() && s.Grew() && old(s.clock) <= s.clock
    ensures RestoredSoFar(was, s.store.rows, known, s.driver.known, s.driver.requested, session, rows, i + 1, wait,
                          more, ok)
    ensures s.Reliable() && before ==> ok
  {
    more, ok := restored, before;
    if wait && rows[i].row.state.Missing? {
      SkippedNext(was, s.store.rows, known, s.driver.known, s.driver.requested, session, rows, i, wait, restored,
                  before);
    } else {
      ok, more := RestoreListed(s, was, known, session, rows, i, wait, before, restored);
    }
  }

  method RestoreListed(s: Service, ghost was: Table, ghost known: set<WindowId>, ghost session: SessionId,
                       rows: seq<Stored>, i: nat, ghost wait: bool, before: bool, restored: seq<Window>)
    returns (ok: bool, more: seq<Window>)
    requires s.Valid() && Lists(was, RestorableOf(was, session), rows) && i < |rows| && known <= s.driver.known
    requires RestoredSoFar(was, s.store.rows, known, s.driver.known, s.driver.requested, session, rows, i, wait,
                           restored, before)
    requires !(wait && rows[i].row.state.Missing?)
    modifies s.store, s.driver`known, s.driver`listings, s.driver`requested, s`snapshots, s`closing, s.driver`commands
    modifies s`clock
    ensures s.Valid() && s.Grew()
    ensures RestoredSoFar(was, s.store.rows, known, s.driver.known, s.driver.requested, session, rows, i + 1, wait,
                          more, ok)
    ensures s.Reliable() && before ==> ok
  {
    RestoringNext(was, s.store.rows, known, session, rows, i, wait, before);
    var done, w := RestoreOne(s, rows[i]);
    RestoredNext(was, old(s.store.rows), s.store.rows, known, old(s.driver.known), s.driver.known,
                 old(s.driver.requested), s.driver.requested, session, rows, i, wait, restored, w, before, done);
    more := restored + if w.Some? then [w.value] else [];
    ok := before && done;
  }

  predicate OpenNow(rows: Table, id: RowId) {
    id in rows && rows[id].state.Open?
  }

  /** Those among the first `n` rows of the list that are open now. */
  function Chosen(rows: Table, list: seq<Stored>, n: nat): seq<Stored>
    requires n <= |list|
  {
    if n == 0 then [] else Chosen(rows, list, n - 1) + if OpenNow(rows, list[n - 1].id) then [list[n - 1]] else []
  }

  lemma {:induction false} ChosenAre(rows: Table, list: seq<Stored>, n: nat, c: Stored)
    requires n <= |list|
    ensures c in Chosen(rows, list, n) <==> OpenNow(rows, c.id) && c in list[..n]
  {
    if n > 0 {
      ChosenAre(rows, list, n - 1, c);
      assert list[..n] == list[..n - 1] + [list[n - 1]];
    }
  }

  lemma {:induction false} ChosenSame(rows: Table, rows': Table, list: seq<Stored>, n: nat)
    requires n <= |list| && forall k :: 0 <= k < n ==> (OpenNow(rows, list[k].id) <==> OpenNow(rows', list[k].id))
    ensures Chosen(rows', list, n) == Chosen(rows, list, n)
  {
    if n > 0 {
      ChosenSame(rows, rows', list, n - 1);
    }
  }

  lemma {:induction false} ChosenByRecency(rows: Table, list: seq<Stored>, n: nat)
    requires n <= |list| && ByRecency(list)
    ensures ByRecency(Chosen(rows, list, n))
  {
    if n > 0 {
      var before := Chosen(rows, list, n - 1);
      ChosenByRecency(rows, list, n - 1);
      forall i | 0 <= i < |before| ensures MoreRecent(before[i], list[n - 1]) {
        ChosenAre(rows, list, n - 1, before[i]);
      }
    }
  }

  /** The windows opened so far are those of the rows among the first `n` that
      are open now, in order. */
  ghost predicate OpenedSoFar(rows: Table, rows': Table, requested: map<WindowId, Origin>, seen: set<WindowId>,
                              list: seq<Stored>, n: nat, restored: seq<Window>) {
    n <= |list| && OpenedFor(rows, rows', requested, seen, Chosen(rows', list, n), restored)
  }

  ghost predicate OpenedFor(rows: Table, rows': Table, requested: map<WindowId, Origin>, seen: set<WindowId>,
                            list: seq<Stored>, restored: seq<Window>) {
    && |restored| == |list|
    && forall i :: 0 <= i < |list| ==>
         restored[i].id in seen && OpenedRow(rows, rows', requested, restored[i].id, list[i].id)
  }

  /** The windows opened are, most recently focused first, those of all closed
      rows that are open now, each created from its row's saved URLs. */
  ghost predicate OpenedInOrder(rows: Table, rows': Table, requested: map<WindowId, Origin>, restored: seq<Window>) {
    exists list, seen :: OpenedAll(rows, rows', requested, seen, list, restored)
  }

  ghost predicate OpenedAll(rows: Table, rows': Table, requested: map<WindowId, Origin>, seen: set<WindowId>,
                            list: seq<Stored>, restored: seq<Window>) {
    && OpenedFor(rows, rows', requested, seen, list, restored) && ByRecency(list)
    && (forall i :: 0 <= i < |list| ==> list[i].id in rows && list[i].row == rows[list[i].id])
    && (forall id :: Reopened(rows, rows', id) ==> exists i :: 0 <= i < |list| && list[i].id == id)
  }

  ghost predicate Reopened(rows: Table, rows': Table, id: RowId) {
    id in rows && !rows[id].state.Open? && OpenNow(rows', id)
  }

  lemma NothingOpened(rows: Table, requested: map<WindowId, Origin>)
    ensures OpenedInOrder(rows, rows, requested, [])
  {
    assert OpenedAll(rows, rows, requested, {}, [], []);
  }

  lemma OpenedSkip(a: Table, b: Table, requested: map<WindowId, Origin>, seen: set<WindowId>, list: seq<Stored>, n: nat,
                   restored: seq<Window>)
    requires OpenedSoFar(a, b, requested, seen, list, n, restored) && n < |list| && !OpenNow(b, list[n].id)
    ensures OpenedSoFar(a, b, requested, seen, list, n + 1, restored)
  {
  }

  lemma OpenedStep(a: Table, b: Table, c: Table, requested: map<WindowId, Origin>, requested': map<WindowId, Origin>,
                   seen: set<WindowId>, seen': set<WindowId>, list: seq<Stored>, n: nat, restored: seq<Window>,
                   w: Option<Window>, done: bool)
    requires OpenedSoFar(a, b, requested, seen, list, n, restored) && n < |list| && seen <= seen'
    requires forall i, j :: 0 <= i < j < |list| ==> list[i].id != list[j].id
    requires list[n].id in a && list[n].id in b && b[list[n].id] == a[list[n].id]
    requires RestoredAt(b, c, seen, list[n].id, done) && OpenedAt(b, c, requested', seen, seen', list[n].id, w)
    requires KeepsOrigins(requested, requested', seen)
    ensures OpenedSoFar(a, c, requested', seen', list, n + 1, restored + if w.Some? then [w.value] else [])
  {
    var before := Chosen(b, list, n);
    ChosenSame(b, c, list, n);
    forall i | 0 <= i < |before| ensures OpenedRow(a, c, requested', restored[i].id, before[i].id) {
      ChosenAre(b, list, n, before[i]);
      assert before[i].id != list[n].id;
    }
  }

  lemma ClosedRowsListed(a: Table, b: Table, known: set<WindowId>, session: SessionId, list: seq<Stored>, wait: bool,
                         ok: bool)
    requires Lists(a, RestorableOf(a, session), list) && Restoring(a, b, known, session, list, |list|, wait, ok)
    ensures forall id :: Reopened(a, b, id) ==> Stored(id, a[id]) in list
  {
    forall id | Reopened(a, b, id) ensures Stored(id, a[id]) in list {
      assert id in RestorableOf(a, session);
      var k :| 0 <= k < |list| && list[k].id == id;
      assert list[k] == Stored(id, a[id]);
    }
  }

  lemma AllOpened(a: Table, b: Table, requested: map<WindowId, Origin>, seen: set<WindowId>, known: set<WindowId>,
                  session: SessionId, list: seq<Stored>, restored: seq<Window>, wait: bool, ok: bool)
    requires Lists(a, RestorableOf(a, session), list) && ByRecency(list)
    requires OpenedSoFar(a, b, requested, seen, list, |list|, restored)
    requires Restoring(a, b, known, session, list, |list|, wait, ok)
    ensures OpenedInOrder(a, b, requested, restored) && b.Keys <= a.Keys
  {
    var chosen := Chosen(b, list, |list|);
    assert list[..|list|] == list;
    ChosenByRecency(b, list, |list|);
    ClosedRowsListed(a, b, known, session, list, wait, ok);
    forall i | 0 <= i < |chosen| ensures chosen[i].id in a && chosen[i].row == a[chosen[i].id] {
      ChosenAre(b, list, |list|, chosen[i]);
    }
    forall id | Reopened(a, b, id) ensures exists i :: 0 <= i < |chosen| && chosen[i].id == id {
      ChosenAre(b, list, |list|, Stored(id, a[id]));
    }
    assert OpenedAll(a, b, requested, seen, chosen, restored);
  }

  /** Windows that were not known and belong to the session now. */
  ghost predicate AllOwned(rows: Table, session: SessionId, known: set<WindowId>, ws: seq<Window>) {
    forall i :: 0 <= i < |ws| ==> OwnedBy(rows, ws[i].id, session) && ws[i].id !in known
  }

  lemma OwnersStay(rows: Table, rows': Table, known: set<WindowId>, ws: seq<Window>, session: SessionId)
    requires StillOpen(rows, rows') && AllOwned(rows, session, known, ws)
    ensures AllOwned(rows', session, known, ws)
  {
    forall j | 0 <= j < |ws| ensures OwnedBy(rows', ws[j].id, session) {
      StillOwned(rows, rows', ws[j].id, session);
    }
  }

  /** The first `n` closed rows were gone through, opening these windows. */
  ghost predicate RestoredSoFar(rows: Table, rows': Table, known: set<WindowId>, seen: set<WindowId>,
                                requested: map<WindowId, Origin>, session: SessionId, list: seq<Stored>, n: nat,
                                wait: bool, restored: seq<Window>, ok: bool) {
    && Restoring(rows, rows', known, session, list, n, wait, ok) && AllOwned(rows', session, known, restored)
    && OpenedSoFar(rows, rows', requested, seen, list, n, restored)
  }

  lemma SkippedNext(a: Table, b: Table, known: set<WindowId>, seen: set<WindowId>, requested: map<WindowId, Origin>,
                    session: SessionId, list: seq<Stored>, n: nat, wait: bool, restored: seq<Window>, ok: bool)
    requires RestoredSoFar(a, b, known, seen, requested, session, list, n, wait, restored, ok)
    requires n < |list| && wait && list[n].row.state.Missing?
    ensures RestoredSoFar(a, b, known, seen, requested, session, list, n + 1, wait, restored, ok)
  {
    RestoringSkip(a, b, known, session, list, n, wait, ok);
    OpenedSkip(a, b, requested, seen, list, n, restored);
  }

  lemma RestoredNext(a: Table, b: Table, c: Table, known: set<WindowId>, seen: set<WindowId>, seen': set<WindowId>,
                     requested: map<WindowId, Origin>, requested': map<WindowId, Origin>, session: SessionId,
                     list: seq<Stored>, n: nat, wait: bool, restored: seq<Window>, w: Option<Window>, ok: bool,
                     done: bool)
    requires RestoredSoFar(a, b, known, seen, requested, session, list, n, wait, restored, ok)
    requires Lists(a, RestorableOf(a, session), list) && n < |list| && !(wait && list[n].row.state.Missing?)
    requires known <= seen <= seen' && RestoredAt(b, c, seen, list[n].id, done)
    requires OpenedAt(b, c, requested', seen, seen', list[n].id, w) && KeepsOrigins(requested, requested', seen)
    ensures RestoredSoFar(a, c, known, seen', requested', session, list, n + 1, wait,
                          restored + if w.Some? then [w.value] else [], ok && done)
  {
    RestoringNext(a, b, known, session, list, n, wait, ok);
    RestoringStep(a, b, c, known, seen, session, list, n, wait, ok, done);
    OwnersStay(b, c, known, restored, session);
    OpenedStep(a, b, c, requested, requested', seen, seen', list, n, restored, w, done);
  }

  /** The first `n` closed rows of the session were gone through. */
  ghost predicate Restoring(rows: Table, rows': Table, known: set<WindowId>, session: SessionId, list: seq<Stored>,
                            n: nat, wait: bool, ok: bool) {
    && n <= |list| && Extends(rows, rows', known, session)
    && (forall j :: j in rows' ==> j in rows && rows'[j].session == rows[j].session)
    && (forall j :: n <= j < |list| ==> list[j].id in rows' && rows'[list[j].id] == list[j].row)
    && (ok ==> forall j :: 0 <= j < n ==> Settled(rows', list[j].id, wait))
    && (wait ==> MissingSame(rows, rows'))
  }

  ghost predicate Settled(rows: Table, id: RowId, wait: bool) {
    id !in rows || rows[id].state.Open? || (wait && rows[id].state.Missing?)
  }

  lemma RestoringSkip(a: Table, b: Table, known: set<WindowId>, session: SessionId, list: seq<Stored>, n: nat,
                      wait: bool, ok: bool)
    requires n < |list| && Restoring(a, b, known, session, list, n, wait, ok) && wait && list[n].row.state.Missing?
    ensures Restoring(a, b, known, session, list, n + 1, wait, ok)
  {
  }

  lemma RestoringNext(a: Table, b: Table, known: set<WindowId>, session: SessionId, list: seq<Stored>, n: nat,
                      wait: bool, ok: bool)
    requires Lists(a, RestorableOf(a, session), list) && n < |list|
    requires Restoring(a, b, known, session, list, n, wait, ok)
    ensures list[n].id in b && b[list[n].id] == list[n].row && !list[n].row.state.Open?
    ensures list[n].row.session == session
  {
  }

  lemma RestoringStep(a: Table, b: Table, c: Table, known: set<WindowId>, seen: set<WindowId>, session: SessionId,
                      list: seq<Stored>, n: nat, wait: bool, ok: bool, done: bool)
    requires Lists(a, RestorableOf(a, session), list) && n < |list|
    requires Restoring(a, b, known, session, list, n, wait, ok)
    requires known <= seen && RestoredAt(b, c, seen, list[n].id, done) && !(wait && list[n].row.state.Missing?)
    ensures Restoring(a, c, known, session, list, n + 1, wait, ok && done)
  {
    ExpandsTwice(a, b, c, known, seen);
  }

  lemma RestoringDone(a: Table, b: Table, known: set<WindowId>, session: SessionId, list: seq<Stored>, wait: bool,
                      ok: bool)
    requires Lists(a, RestorableOf(a, session), list) && Restoring(a, b, known, session, list, |list|, wait, ok)
    ensures ok ==> forall id :: id in RestorableOf(b, session) ==> wait && b[id].state.Missing?
  {
    forall id | ok && id in RestorableOf(b, session) ensures wait && b[id].state.Missing? {
      assert id in a && !a[id].state.Open?;
      assert id in RestorableOf(a, session);
      var j :| 0 <= j < |list| && list[j].id == id;
      assert Settled(b, list[j].id, wait);
    }
  }

  // --- the attached session's window ------------------------------------------------

  /** Creates a window, or detaches a tab into one, and records it as the
      session's. */
  method CreateSessionWindow(s: Service, session: SessionId, origin: Origin) returns (w: Option<Window>)
    requires s.Valid()
    modifies s.store, s.driver`known, s.driver`listings, s.driver`requested, s`snapshots, s`closing, s.driver`commands
    modifies s`clock
    ensures s.Valid() && s.Grew()
    ensures Extends(old(s.store.rows), s.store.rows, old(s.driver.known), session)
    ensures w.None? ==> s.store.rows == old(s.store.rows)
    ensures Adds(old(s.store.rows), s.store.rows)
    ensures w.Some? ==> w.value.id !in old(s.driver.known) && OwnedBy(s.store.rows, w.value.id, session)
    ensures w.Some? ==>
              && w.value.id in s.driver.requested && s.driver.requested[w.value.id] == origin
              && s.driver.commands == old(s.driver.commands)
    ensures w.Some? ==>
              s.store.rows ==
              old(s.store.rows)[old(s.store.nextId) :=
                                  Row(session, Open, w.value.id, s.clock, WebTabs(w.value.tabs), s.clock)]
    ensures s.Reliable() ==> w.Some?
  {
    w := s.driver.NewWindow(origin);
    if w.Some? {
      var ok := RecordWindow(s, session, w.value);
      if !ok {
        if WebTabs(w.value.tabs) == [] {
          var _ := s.CloseWindow(w.value.id);
        }
        w := None;
      }
    }
  }

  method RecordWindow(s: Service, session: SessionId, w: Window) returns (ok: bool)
    requires s.Valid() && w.id != "" && w.id in s.driver.known && w.id !in Owned(s.store.rows)
    requires w.id !in s.deferredAdopt
    modifies s.store, s`clock
    ensures s.Valid() && s.Grew()
    ensures ok ==>
              s.store.rows ==
              old(s.store.rows)[old(s.store.nextId) := Row(session, Open, w.id, s.clock, WebTabs(w.tabs), s.clock)]
    ensures old(s.store.nextId) !in old(s.store.rows)
    ensures !ok ==> s.store.rows == old(s.store.rows)
    ensures Gains(old(s.store.rows), s.store.rows, w.id) && (ok ==> OwnedBy(s.store.rows, w.id, session))
    ensures s.Reliable() ==> ok
  {
    var now := s.Now();
    var tabs := SavedTabs(w);
    ok := s.AddOpenRow(Row(session, Open, w.id, now, tabs, now));
  }

  /** Makes sure the attached session shows a window: one of its own that is
      there, else a restored one, else, the first time, a new one. */
  method ProvideAttached(s: Service, session: SessionId, live: seq<Window>) returns (ok: bool, provided: bool)
    requires s.Valid()
    modifies s.store, s.driver`known, s.driver`listings, s.driver`requested, s`snapshots, s`closing, s.driver`commands
    modifies s`clock, s`restoreUntil
    modifies s`placeStale, s`ensuredFor
    ensures s.Valid() && s.Grew() && s.ensuredFor == session
    ensures Extends(old(s.store.rows), s.store.rows, old(s.driver.known), session)
    ensures provided ==> ShowsIn(s.store.rows, session, {}, old(s.driver.known))
    ensures ok && s.connected ==>
              Provided(old(s.store.rows), s.store.rows, session, old(s.ensuredFor) != session, ListedIds(live),
                       old(s.driver.known))
    ensures AddsOnlyIf(old(s.store.rows), s.store.rows, old(s.ensuredFor) != session)
    ensures ok && AnyOpen(old(s.store.rows), session, ListedIds(live)) ==>
              !provided && s.store.rows == old(s.store.rows)
    ensures s.Reliable() ==> ok
  {
    var ensure := s.ensuredFor != session;
    s.ensuredFor := session;
    provided := false;
    var rows := s.store.ListOpenBySession(session);
    ok := rows.Some?;
    if ok {
      var at := AnyListed(rows.value, live);
      if at.Some? {
        var r := rows.value[at.value];
        assert r.id in OpenOf(s.store.rows, session) && OwnedBy(s.store.rows, r.row.window, session);
      } else {
        NoneListed(s.store.rows, session, rows.value, live);
        ok, provided := RestoreOrCreate(s, session, ensure);
      }
    }
  }

  /** The session owns one of those windows. */
  ghost predicate AnyOpen(rows: Table, session: SessionId, ids: set<WindowId>) {
    exists id :: id in OpenOf(rows, session) && rows[id].window in ids
  }

  lemma NoneListed(rows: Table, session: SessionId, list: seq<Stored>, live: seq<Window>)
    requires Lists(rows, OpenOf(rows, session), list)
    requires forall i :: 0 <= i < |list| ==> list[i].row.window !in ListedIds(live)
    ensures forall id :: id in OpenOf(rows, session) ==> rows[id].window !in ListedIds(live)
  {
    forall id | id in OpenOf(rows, session) ensures rows[id].window !in ListedIds(live) {
      var i :| 0 <= i < |list| && list[i].id == id;
    }
  }

  /** Whatever closed rows the session still has may turn up by themselves. */
  ghost predicate LeftMissing(rows: Table, session: SessionId) {
    forall id :: id in RestorableOf(rows, session) ==> rows[id].state.Missing?
  }

  method RestoreOrCreate(s: Service, session: SessionId, ensure: bool) returns (ok: bool, provided: bool)
    requires s.Valid()
    modifies s.store, s.driver`known, s.driver`listings, s.driver`requested, s`snapshots, s`closing, s.driver`commands
    modifies s`clock, s`restoreUntil, s`placeStale
    ensures s.Valid() && s.Grew()
    ensures Extends(old(s.store.rows), s.store.rows, old(s.driver.known), session)
    ensures provided ==> ShowsIn(s.store.rows, session, {}, old(s.driver.known))
    ensures ok && ensure ==> provided
    ensures ok && s.connected ==> LeftMissing(s.store.rows, session)
    ensures AddsOnlyIf(old(s.store.rows), s.store.rows, ensure)
    ensures s.Reliable() ==> ok
  {
    var restored;
    ghost var waiting;
    ok, restored, waiting := Restore(s, session);
    provided := |restored| > 0;
    if provided {
      assert OwnedBy(s.store.rows, restored[0].id, session) && restored[0].id !in old(s.driver.known);
    } else if ensure {
      ghost var before, seen := s.store.rows, s.driver.known;
      NoneWasReopened(old(s.store.rows), before, s.driver.requested);
      provided := CreateBlank(s, session);
      ExtendsTwice(old(s.store.rows), before, s.store.rows, old(s.driver.known), seen, session);
      NoneReopenedStill(old(s.store.rows), before, s.store.rows);
      ok := ok && provided;
    }
  }

  /** Creates an empty window for the session. */
  method CreateBlank(s: Service, session: SessionId) returns (ok: bool)
    requires s.Valid()
    modifies s.store, s.driver`known, s.driver`listings, s.driver`requested, s`snapshots, s`closing, s.driver`commands
    modifies s`clock
    ensures s.Valid() && s.Grew()
    ensures Extends(old(s.store.rows), s.store.rows, old(s.driver.known), session)
    ensures Adds(old(s.store.rows), s.store.rows)
    ensures ok ==> ShowsIn(s.store.rows, session, {}, old(s.driver.known))
    ensures LeftMissing(old(s.store.rows), session) ==> LeftMissing(s.store.rows, session)
    ensures s.Reliable() ==> ok
  {
    var w := CreateSessionWindow(s, session, FromUrls([]));
    ok := w.Some?;
  }

  lemma NoneReopenedStill(a: Table, b: Table, c: Table)
    requires NoneReopened(a, b) && Keeps(a, b) && Adds(b, c)
    ensures NoneReopened(a, c)
  {
  }

  /** A row was added only if `first`, and then no closed one could be opened. */
  ghost predicate AddsOnlyIf(rows: Table, rows': Table, first: bool) {
    rows'.Keys <= rows.Keys || (first && NoneReopened(rows, rows'))
  }

  /** No closed row with saved tabs was opened. */
  ghost predicate NoneReopened(rows: Table, rows': Table) {
    forall id :: Reopened(rows, rows', id) ==> rows[id].tabs == []
  }

  lemma NoneWasReopened(rows: Table, rows': Table, requested: map<WindowId, Origin>)
    ensures OpenedInOrder(rows, rows', requested, []) ==> NoneReopened(rows, rows')
  {
  }

  /** What providing the session's window achieves: the first time it owns one
      that is listed or new, and if none was listed its closed rows were opened. */
  ghost predicate Provided(rows: Table, rows': Table, session: SessionId, first: bool, ids: set<WindowId>,
                           known: set<WindowId>) {
    && (first ==> ShowsIn(rows', session, ids, known))
    && ((forall id :: id in OpenOf(rows, session) ==> rows[id].window !in ids) ==> LeftMissing(rows', session))
  }

  /** The session owns a window that is listed or was not known before. */
  ghost predicate ShowsIn(rows: Table, session: SessionId, ids: set<WindowId>, known: set<WindowId>) {
    exists w :: OwnedBy(rows, w, session) && (w in ids || w !in known)
  }

  method AnyListed(rows: seq<Stored>, live: seq<Window>) returns (at: Option<nat>)
    ensures at.Some? ==> at.value < |rows| && rows[at.value].row.window in ListedIds(live)
    ensures at.None? ==> forall i :: 0 <= i < |rows| ==> rows[i].row.window !in ListedIds(live)
  {
    for i := 0 to |rows|
      invariant forall j :: 0 <= j < i ==> rows[j].row.window !in ListedIds(live)
    {
      var w := FindWindow(live, rows[i].row.window);
      if w.Some? {
        return Some(i);
      }
    }
    at := None;
  }

  /** How far the browser was known, listed and commanded at some time. */
  datatype Mark = Mark(known: set<WindowId>, listed: nat, opens: nat, sent: nat)

  ghost function MarkOf(d: Driver): Mark
    reads d
  {
    Mark(d.known, |d.listings|, |d.openings|, |d.commands|)
  }

  ghost predicate Later(mark: Mark, d: Driver)
    reads d
  {
    mark.known <= d.known && mark.listed <= |d.listings| && mark.opens <= |d.openings| && mark.sent <= |d.commands|
  }

  ghost predicate ListedSince(d: Driver, mark: Mark, live: seq<Window>)
    reads d
  {
    exists i :: mark.listed <= i < |d.listings| && d.listings[i] == live
  }

  /** The browser listed these windows in this step. */
  twostate predicate ListedNow(s: Service, live: seq<Window>)
    reads s.driver
  {
    ListedSince(s.driver, old(MarkOf(s.driver)), live)
  }

  /** The first half of a placement: the attached session's window is provided
      and the windows are listed. */
  method Provide(s: Service) returns (live: Option<seq<Window>>)
    requires s.Valid() && s.connected
    modifies s.store, s.driver`known, s.driver`listings, s.driver`requested, s`snapshots, s`closing, s.driver`commands
    modifies s`clock, s`restoreUntil
    modifies s`placeStale, s`ensuredFor
    ensures s.Valid() && s.Grew()
    ensures Extends(old(s.store.rows), s.store.rows, old(s.driver.known), s.attached)
    ensures s.attached == 0 ==> s.store.rows == old(s.store.rows)
    ensures live.Some? ==> ListedNow(s, live.value)
    ensures s.attached != 0 && live.Some? ==> s.ensuredFor == s.attached
    ensures s.attached != 0 && s.Reliable() ==>
              ProvidedNow(s, old(s.store.rows), old(s.ensuredFor) != s.attached, old(MarkOf(s.driver)))
    ensures s.Reliable() ==> live.Some?
  {
    live := s.List();
    if live.Some? {
      assert s.driver.listings[|old(s.driver.listings)|] == live.value;
      if s.attached != 0 {
        live := ProvideListed(s, live.value, old(MarkOf(s.driver)));
      }
    }
  }

  /** The attached session's window was provided by the first listing since. */
  ghost predicate ProvidedNow(s: Service, rows: Table, first: bool, mark: Mark)
    reads s, s.store, s.driver
  {
    mark.listed < |s.driver.listings| &&
    Provided(rows, s.store.rows, s.attached, first, ListedIds(s.driver.listings[mark.listed]), mark.known)
  }

  method ProvideListed(s: Service, live: seq<Window>, ghost mark: Mark) returns (again: Option<seq<Window>>)
    requires s.Valid() && s.connected && s.Latest(live) && mark.known <= s.driver.known
    requires mark.listed < |s.driver.listings| && s.driver.listings[mark.listed] == live
    modifies s.store, s.driver`known, s.driver`listings, s.driver`requested, s`snapshots, s`closing, s.driver`commands
    modifies s`clock, s`restoreUntil
    modifies s`placeStale, s`ensuredFor
    ensures s.Valid() && s.Grew()
    ensures Extends(old(s.store.rows), s.store.rows, old(s.driver.known), s.attached)
    ensures again.Some? ==> again.value == live || ListedNow(s, again.value)
    ensures old(s.driver.listings) <= s.driver.listings
    ensures s.ensuredFor == s.attached
    ensures s.Reliable() ==> ProvidedNow(s, old(s.store.rows), old(s.ensuredFor) != s.attached, mark)
    ensures s.Reliable() ==> again.Some?
  {
    again := Some(live);
    var tried, provided := ProvideAttached(s, s.attached, live);
    if provided {
      again := s.List();
      assert again.Some? ==> s.driver.listings[|s.driver.listings| - 1] == again.value;
    }
  }

  /** A placement: provides the attached session's window, links the open rows'
      windows to the window manager's and moves each linked one that is not on
      its workspace there. */
  method Place(s: Service, links: Link.Linker, title: Window -> string, wms: Option<seq<Link.WmWindow>>,
               layout: Placement.Layout, fails: set<Link.WmId>)
    returns (ok: bool, moves: seq<Placement.Move>, ghost live: seq<Window>, ghost open: seq<Placement.OpenRow>)
    requires s.Valid()
    modifies s.store, s.driver`known, s.driver`listings, s.driver`requested, s`snapshots, s`closing, s.driver`commands
    modifies s`clock, s`restoreUntil
    modifies s`placeStale, s`ensuredFor, s`placedFor, links
    ensures s.Valid() && s.Grew()
    ensures Extends(old(s.store.rows), s.store.rows, old(s.driver.known), s.attached)
    ensures !s.connected || s.attached == 0 ==> s.store.rows == old(s.store.rows)
    ensures !ok ==> moves == []
    ensures ok && s.connected ==> s.placedFor == s.attached && !s.placeStale
    ensures ok && s.connected ==> wms.Some? && ListedNow(s, live) && IsOpen(s.store.rows, open)
    ensures ok && s.connected ==>
              Link.Resolves(old(links.links), live, title, wms.value, Placement.Wanted(open), links.links)
    ensures ok && s.connected ==>
              moves ==
              Placement.MovesFor(open, Placement.Result(open, links.links), wms.value, layout, s.attached, fails)
    ensures s.connected && s.attached != 0 && s.Reliable() ==>
              ProvidedNow(s, old(s.store.rows), old(s.ensuredFor) != s.attached, old(MarkOf(s.driver)))
    ensures s.Reliable() && wms.Some? ==> ok
  {
    moves, live, open := [], [], [];
    if !s.connected {
      return true, [], [], [];
    }
    var listed := Provide(s);
    if listed.None? || wms.None? {
      return false, [], [], [];
    }
    live := listed.value;
    ok, moves, open := PlaceRows(s, links, listed.value, title, wms.value, layout, fails);
  }

  method PlaceRows(s: Service, links: Link.Linker, live: seq<Window>, title: Window -> string, wms: seq<Link.WmWindow>,
                   layout: Placement.Layout, fails: set<Link.WmId>)
    returns (ok: bool, moves: seq<Placement.Move>, ghost open: seq<Placement.OpenRow>)
    requires s.Valid()
    modifies s`placeStale, s`placedFor, links
    ensures s.Valid()
    ensures !ok ==> moves == []
    ensures ok ==> s.placedFor == s.attached && !s.placeStale && IsOpen(s.store.rows, open)
    ensures ok ==> Link.Resolves(old(links.links), live, title, wms, Placement.Wanted(open), links.links)
    ensures ok ==>
              moves == Placement.MovesFor(open, Placement.Result(open, links.links), wms, layout, s.attached, fails)
    ensures s.Reliable() ==> ok
  {
    moves, open := [], [];
    var rows := s.store.ListOpen();
    if rows.None? {
      return false, [], [];
    }
    var list := rows.value;
    var wanted := seq(|list|, i requires 0 <= i < |list| => Placement.OpenRow(list[i].row.session, list[i].row.window));
    OpenRowsListed(s.store.rows, rows.value, wanted);
    open := wanted;
    moves := Placement.Place(links, live, title, wms, wanted, layout, s.attached, fails);
    s.placedFor, s.placeStale := s.attached, false;
    ok := true;
  }

  /** The open rows, each once. */
  ghost predicate IsOpen(rows: Table, open: seq<Placement.OpenRow>) {
    exists list: seq<Stored> :: Lists(rows, OpenRows(rows), list) && |list| == |open|
      && forall i :: 0 <= i < |list| ==> open[i] == Placement.OpenRow(list[i].row.session, list[i].row.window)
  }

  lemma OpenRowsListed(rows: Table, list: seq<Stored>, open: seq<Placement.OpenRow>)
    requires Lists(rows, OpenRows(rows), list) && |list| == |open|
    requires forall i :: 0 <= i < |list| ==> open[i] == Placement.OpenRow(list[i].row.session, list[i].row.window)
    ensures IsOpen(rows, open)
  {
  }

  /** Places windows before one is focused, unless that was done for the
      attached session; whether the window manager answers is left open. */
  method EnsurePlaced(s: Service)
    requires s.Valid() && s.connected
    modifies s.store, s.driver`known, s.driver`listings, s.driver`requested, s`snapshots, s`closing, s.driver`commands
    modifies s`clock, s`restoreUntil
    modifies s`placeStale, s`ensuredFor, s`placedFor
    ensures s.Valid() && s.Grew()
    ensures Extends(old(s.store.rows), s.store.rows, old(s.driver.known), s.attached)
    ensures !old(s.placeStale) && old(s.placedFor) == s.attached ==>
              s.store.rows == old(s.store.rows) && s.driver.listings == old(s.driver.listings)
    ensures s.Reliable() ==> s.placedFor == s.attached && !s.placeStale
  {
    if s.placeStale || s.placedFor != s.attached {
      var live := Provide(s);
      var placed := s.driver.Answers();
      if live.Some? && placed {
        s.placedFor, s.placeStale := s.attached, false;
      }
    }
  }

  // --- opening URLs ------------------------------------------------------------------

  /** The window to use for the session: its most recently focused row whose
      window is listed; without session, the last focused window if nobody owns
      it, else the first listed one nobody owns. */
  method TargetWindow(s: Service, session: SessionId, live: seq<Window>) returns (ok: bool, target: Option<Window>)
    requires s.Valid()
    ensures target.Some? ==> target.value in live && target.value.id in ListedIds(live)
    ensures target.Some? && session == 0 ==> IsUnownedTarget(s.store.rows, s.lastFocused, live, target.value)
    ensures target.Some? && session != 0 ==>
              exists id :: IsTarget(s.store.rows, session, live, id) && s.store.rows[id].window == target.value.id
    ensures ok && target.None? && session == 0 ==> ListedIds(live) <= Owned(s.store.rows)
    ensures ok && target.None? && session != 0 ==>
              forall id :: id in OpenOf(s.store.rows, session) ==> s.store.rows[id].window !in ListedIds(live)
    ensures s.Reliable() ==> ok
  {
    if session == 0 {
      ok, target := UnownedTarget(s, live);
      return;
    }
    var rows := s.store.ListOpenBySession(session);
    if rows.None? {
      return false, None;
    }
    for i := 0 to |rows.value|
      invariant forall j :: 0 <= j < i ==> rows.value[j].row.window !in ListedIds(live)
    {
      target := FindLast(live, rows.value[i].row.window);
      if target.Some? {
        TargetFound(s.store.rows, session, live, rows.value, i);
        return true, target;
      }
    }
    ok, target := true, None;
  }

  /** The most recently focused of the session's rows whose window is listed. */
  ghost predicate IsTarget(rows: Table, session: SessionId, live: seq<Window>, id: RowId) {
    && id in OpenOf(rows, session) && rows[id].window in ListedIds(live)
    && forall j :: j in OpenOf(rows, session) && rows[j].window in ListedIds(live) ==>
         MoreRecent(Stored(id, rows[id]), Stored(j, rows[j]))
  }

  lemma TargetFound(rows: Table, session: SessionId, live: seq<Window>, list: seq<Stored>, i: nat)
    requires Lists(rows, OpenOf(rows, session), list) && ByRecency(list) && i < |list|
    requires list[i].row.window in ListedIds(live)
    requires forall j :: 0 <= j < i ==> list[j].row.window !in ListedIds(live)
    ensures IsTarget(rows, session, live, list[i].id)
  {
    forall j | j in OpenOf(rows, session) && rows[j].window in ListedIds(live)
      ensures MoreRecent(list[i], Stored(j, rows[j]))
    {
      var k :| 0 <= k < |list| && list[k].id == j;
      assert list[k] == Stored(j, rows[j]);
    }
    assert list[i] == Stored(list[i].id, rows[list[i].id]);
  }

  /** The last focused window if it is listed and nobody owns it, else the first
      listed one nobody owns. */
  ghost predicate IsUnownedTarget(rows: Table, focused: WindowId, live: seq<Window>, v: Window) {
    if focused in ListedIds(live) && focused !in Owned(rows) then LastListed(live, focused) == Some(v)
    else exists i ::
           && 0 <= i < |live| && live[i] == v && v.id !in Owned(rows)
           && forall j :: 0 <= j < i ==> live[j].id in Owned(rows)
  }

  method UnownedTarget(s: Service, live: seq<Window>) returns (ok: bool, target: Option<Window>)
    requires s.Valid()
    ensures target.Some? ==>
              target.value in live && target.value.id in ListedIds(live) && target.value.id !in Owned(s.store.rows)
    ensures target.Some? ==> IsUnownedTarget(s.store.rows, s.lastFocused, live, target.value)
    ensures ok && target.None? ==> ListedIds(live) <= Owned(s.store.rows)
    ensures s.Reliable() ==> ok
  {
    var owned := s.store.OwnedWindows();
    if owned.None? {
      return false, None;
    }
    target := FindLast(live, s.lastFocused);
    if target.Some? && target.value.id !in owned.value {
      return true, target;
    }
    for i := 0 to |live|
      invariant forall j :: 0 <= j < i ==> live[j].id in owned.value
    {
      if live[i].id !in owned.value {
        return true, Some(live[i]);
      }
    }
    ok, target := true, None;
  }

  /** At most the window was marked, and only for no session. */
  predicate Marks(was: set<WindowId>, now: set<WindowId>, session: SessionId, w: WindowId) {
    now == was || (session == 0 && now == was + {w})
  }

  /** The window is the session's, or nobody's if there is no session. */
  ghost predicate ForSession(rows: Table, w: WindowId, session: SessionId) {
    if session == 0 then w !in Owned(rows) else OwnedBy(rows, w, session)
  }

  /** No window to open a URL in is listed: none of the session, or none that
      nobody owns. */
  ghost predicate NoneThere(rows: Table, session: SessionId, live: seq<Window>) {
    if session == 0 then ListedIds(live) <= Owned(rows)
    else forall id :: id in OpenOf(rows, session) ==> rows[id].window !in ListedIds(live)
  }

  /** Such a window, the one to prefer. */
  ghost predicate IsThere(rows: Table, focused: WindowId, session: SessionId, live: seq<Window>, window: WindowId) {
    if session == 0 then exists v :: IsUnownedTarget(rows, focused, live, v) && v.id == window
    else exists id :: IsTarget(rows, session, live, id) && rows[id].window == window
  }

  /** A closed row of the session is open in that window now. */
  ghost predicate RestoredIn(rows: Table, rows': Table, session: SessionId, window: WindowId) {
    exists id :: Reopened(rows, rows', id) && rows[id].session == session && rows'[id].window == window
  }

  /** Of the closed rows opened, the most recently focused one has the window,
      created from its saved URLs. */
  ghost predicate FirstRestored(rows: Table, rows': Table, requested: map<WindowId, Origin>, session: SessionId,
                                window: WindowId) {
    exists id :: FirstOpened(rows, rows', requested, session, window, id)
  }

  ghost predicate FirstOpened(rows: Table, rows': Table, requested: map<WindowId, Origin>, session: SessionId,
                              window: WindowId, id: RowId) {
    && OpenedRow(rows, rows', requested, window, id) && rows[id].session == session
    && forall j :: Reopened(rows, rows', j) ==> MoreRecent(Stored(id, rows[id]), Stored(j, rows[j]))
  }

  lemma FirstIsOpened(rows: Table, rows': Table, requested: map<WindowId, Origin>, restored: seq<Window>,
                      known: set<WindowId>, session: SessionId)
    requires OpenedInOrder(rows, rows', requested, restored) && restored != [] && Extends(rows, rows', known, session)
    ensures FirstRestored(rows, rows', requested, session, restored[0].id)
  {
    var list: seq<Stored>, seen :| OpenedAll(rows, rows', requested, seen, list, restored);
    var id := list[0].id;
    assert OpenedRow(rows, rows', requested, restored[0].id, id);
    forall j | Reopened(rows, rows', j) ensures MoreRecent(Stored(id, rows[id]), Stored(j, rows[j])) {
      var k :| 0 <= k < |list| && list[k].id == j;
      assert list[0] == Stored(id, rows[id]) && list[k] == Stored(j, rows[j]);
    }
    assert FirstOpened(rows, rows', requested, session, restored[0].id, id);
  }

  /** A URL is opened in the listed window to prefer; if there is none, in a
      window a closed row was restored in; and in a window made from it only if
      none was. */
  ghost predicate OpensIn(rows: Table, rows': Table, requested: map<WindowId, Origin>, focused: WindowId,
                          session: SessionId, live: seq<Window>, known: set<WindowId>, window: WindowId, url: Url) {
    || IsThere(rows, focused, session, live, window)
    || (&& NoneThere(rows, session, live) && window !in known
        && (RestoredIn(rows, rows', session, window) || MadeFrom(rows, rows', requested, window, url)))
  }

  ghost predicate MadeFrom(rows: Table, rows': Table, requested: map<WindowId, Origin>, window: WindowId, url: Url) {
    NoneReopened(rows, rows') && window in requested && requested[window] == FromUrls([url])
  }

  /** So by the first listing made since. */
  ghost predicate OpensNow(s: Service, rows: Table, session: SessionId, mark: Mark, window: WindowId, url: Url)
    reads s, s.store, s.driver
  {
    mark.listed < |s.driver.listings| &&
    OpensIn(rows, s.store.rows, s.driver.requested, s.lastFocused, session, s.driver.listings[mark.listed], mark.known,
            window, url)
  }

  /** What there is to open a URL in: the listed window to prefer, else the
      first window restored, else none. */
  ghost predicate Finds(rows: Table, rows': Table, requested: map<WindowId, Origin>, focused: WindowId,
                        session: SessionId, live: seq<Window>, known: set<WindowId>, target: Option<Window>) {
    match target
    case None => NoneThere(rows, session, live) && NoneReopened(rows, rows')
    case Some(v) =>
      || IsThere(rows, focused, session, live, v.id)
      || (NoneThere(rows, session, live) && v.id !in known && FirstRestored(rows, rows', requested, session, v.id))
  }

  ghost predicate FoundNow(s: Service, rows: Table, session: SessionId, mark: Mark, target: Option<Window>)
    reads s, s.store, s.driver
  {
    mark.listed < |s.driver.listings| &&
    Finds(rows, s.store.rows, s.driver.requested, s.lastFocused, session, s.driver.listings[mark.listed], mark.known,
          target)
  }

  lemma FoundIsOpened(a: Table, b: Table, c: Table, requested: map<WindowId, Origin>, requested': map<WindowId, Origin>,
                      focused: WindowId, session: SessionId, live: seq<Window>, known: set<WindowId>, v: Window,
                      url: Url)
    requires Finds(a, b, requested, focused, session, live, known, Some(v)) && StillOpen(b, c)
    ensures OpensIn(a, c, requested', focused, session, live, known, v.id, url)
  {
    if !IsThere(a, focused, session, live, v.id) {
      var id :| FirstOpened(a, b, requested, session, v.id, id);
      assert Reopened(a, c, id);
    }
  }

  lemma NoneFoundIsMade(a: Table, b: Table, c: Table, requested: map<WindowId, Origin>, requested': map<WindowId,
                        Origin>, focused: WindowId, session: SessionId, live: seq<Window>, known: set<WindowId>,
                        w: WindowId, url: Url)
    requires Finds(a, b, requested, focused, session, live, known, None) && Keeps(a, b) && Adds(b, c)
    requires w !in known && w in requested' && requested'[w] == FromUrls([url])
    ensures OpensIn(a, c, requested', focused, session, live, known, w, url)
  {
    NoneReopenedStill(a, b, c);
  }

  /** At most rows were added. */
  ghost predicate Adds(rows: Table, rows': Table) {
    forall id :: id in rows ==> id in rows' && rows'[id] == rows[id]
  }

  /** A window listed or created since. */
  ghost predicate SeenSince(d: Driver, mark: Mark, v: Window)
    reads d
  {
    v.id !in mark.known || exists live :: ListedSince(d, mark, live) && v in live
  }

  /** Since then the browser was made to show the URL in that window: it created
      the window from the URL, opened the URL in it last, or last activated the
      tab of the window that stands best for it. */
  ghost predicate ShownSince(d: Driver, mark: Mark, window: WindowId, url: Url)
    reads d
  {
    || (window !in mark.known && window in d.requested && d.requested[window] == FromUrls([url]))
    || (|d.openings| > mark.opens && d.openings[|d.openings| - 1] == (window, url))
    || (&& |d.commands| > mark.sent
        && exists v: Window :: v.id == window && SeenSince(d, mark, v) && ActivatedLast(d.commands, v, url))
  }

  twostate predicate Seen(s: Service, v: Window)
    reads s.driver
  {
    SeenSince(s.driver, old(MarkOf(s.driver)), v)
  }

  /** The step shows the URL in that window. */
  twostate predicate Displays(s: Service, window: WindowId, url: Url)
    reads s.driver
  {
    ShownSince(s.driver, old(MarkOf(s.driver)), window, url)
  }

  /** Opens a URL for a session, or for none: in the window that is there, a
      restored one, or a new one, which then belongs to whom it was asked for. */
  method OpenUrl(s: Service, session: SessionId, url: Url, focus: bool) returns (ok: bool, window: WindowId)
    requires s.Valid()
    modifies s.store, s.driver`known, s.driver`listings, s.driver`requested, s.driver`openings, s`snapshots, s`closing
    modifies s.driver`commands, s`clock, s`restoreUntil
    modifies s`placeStale, s`ensuredFor, s`placedFor, s`unowned, s`daemonUnowned
    ensures s.Valid() && s.Grew()
    ensures Expands(old(s.store.rows), s.store.rows, old(s.driver.known))
    ensures ok ==> ForSession(s.store.rows, window, session)
    ensures ok ==> Displays(s, window, url)
    ensures ok ==> OpensNow(s, old(s.store.rows), session, old(MarkOf(s.driver)), window, url)
    ensures !s.connected ==> !ok && s.store.rows == old(s.store.rows)
    ensures Marks(old(s.unowned), s.unowned, session, window)
    ensures Marks(old(s.daemonUnowned), s.daemonUnowned, session, window)
    ensures s.Reliable() && s.connected ==> ok
  {
    ok, window := false, "";
    if s.connected {
      ok, window := OpenThere(s, session, url, focus);
    }
  }

  method OpenThere(s: Service, session: SessionId, url: Url, focus: bool) returns (ok: bool, window: WindowId)
    requires s.Valid() && s.connected
    modifies s.store, s.driver`known, s.driver`listings, s.driver`requested, s.driver`openings, s`snapshots, s`closing
    modifies s.driver`commands, s`clock, s`restoreUntil
    modifies s`placeStale, s`ensuredFor, s`placedFor, s`unowned, s`daemonUnowned
    ensures s.Valid() && s.Grew()
    ensures Expands(old(s.store.rows), s.store.rows, old(s.driver.known))
    ensures ok ==> ForSession(s.store.rows, window, session)
    ensures ok ==> Displays(s, window, url)
    ensures ok ==> OpensNow(s, old(s.store.rows), session, old(MarkOf(s.driver)), window, url)
    ensures Marks(old(s.unowned), s.unowned, session, window)
    ensures Marks(old(s.daemonUnowned), s.daemonUnowned, session, window)
    ensures s.Reliable() ==> ok
  {
    window := "";
    var target;
    ok, target := FindTarget(s, session);
    if ok {
      ok, window := ShowUrl(s, session, target, url, focus, old(s.store.rows), old(MarkOf(s.driver)));
    }
  }

  /** Shows a URL in the window that was found, or in a new one. */
  method ShowUrl(s: Service, session: SessionId, target: Option<Window>, url: Url, focus: bool, ghost was: Table,
                 ghost mark: Mark)
    returns (ok: bool, window: WindowId)
    requires s.Valid() && s.connected && Expands(was, s.store.rows, mark.known) && Later(mark, s.driver)
    requires (target.Some? ==> SeenSince(s.driver, mark, target.value))
    requires FoundNow(s, was, session, mark, target)
    requires target.Some? ==> ForSession(s.store.rows, target.value.id, session) && target.value.id in s.driver.known
    modifies s.store, s.driver`known, s.driver`listings, s.driver`requested, s.driver`openings, s`snapshots, s`closing
    modifies s.driver`commands, s`clock, s`restoreUntil
    modifies s`placeStale, s`ensuredFor, s`placedFor, s`unowned, s`daemonUnowned
    ensures s.Valid() && s.Grew()
    ensures Expands(was, s.store.rows, mark.known)
    ensures ok ==> ForSession(s.store.rows, window, session)
    ensures ok ==> ShownSince(s.driver, mark, window, url)
    ensures ok ==> OpensNow(s, was, session, mark, window, url)
    ensures Marks(old(s.unowned), s.unowned, session, window)
    ensures Marks(old(s.daemonUnowned), s.daemonUnowned, session, window)
    ensures s.Reliable() ==> ok
  {
    if target.None? {
      ok, window := ShowMade(s, session, url, was, mark);
    } else {
      window := target.value.id;
      ok := ShowFound(s, session, target.value, url, focus, was, mark);
    }
  }

  /** Shows a URL in a new window, as none was found. */
  method ShowMade(s: Service, session: SessionId, url: Url, ghost was: Table, ghost mark: Mark)
    returns (ok: bool, window: WindowId)
    requires s.Valid() && Expands(was, s.store.rows, mark.known) && Later(mark, s.driver)
    requires FoundNow(s, was, session, mark, None)
    modifies s.store, s.driver`known, s.driver`listings, s.driver`requested, s`clock, s`unowned, s`daemonUnowned
    ensures s.Valid() && s.Grew()
    ensures Expands(was, s.store.rows, mark.known)
    ensures ok ==> ForSession(s.store.rows, window, session)
    ensures ok ==> ShownSince(s.driver, mark, window, url) && OpensNow(s, was, session, mark, window, url)
    ensures Marks(old(s.unowned), s.unowned, session, window)
    ensures Marks(old(s.daemonUnowned), s.daemonUnowned, session, window)
    ensures s.Reliable() ==> ok
  {
    ok, window := OpenInNew(s, session, url);
    ExpandsTwice(was, old(s.store.rows), s.store.rows, mark.known, old(s.driver.known));
    if ok {
      NoneFoundIsMade(was, old(s.store.rows), s.store.rows, old(s.driver.requested), s.driver.requested, s.lastFocused,
                      session, s.driver.listings[mark.listed], mark.known, window, url);
    }
  }

  /** Shows a URL in the window that was found. */
  method ShowFound(s: Service, ghost session: SessionId, target: Window, url: Url, focus: bool, ghost was: Table,
                   ghost mark: Mark)
    returns (ok: bool)
    requires s.Valid() && s.connected && Expands(was, s.store.rows, mark.known) && Later(mark, s.driver)
    requires FoundNow(s, was, session, mark, Some(target)) && SeenSince(s.driver, mark, target)
    requires ForSession(s.store.rows, target.id, session) && target.id in s.driver.known
    modifies s.store, s.driver`known, s.driver`listings, s.driver`requested, s.driver`openings, s`snapshots, s`closing
    modifies s.driver`commands, s`clock, s`restoreUntil
    modifies s`placeStale, s`ensuredFor, s`placedFor
    ensures s.Valid() && s.Grew()
    ensures Expands(was, s.store.rows, mark.known)
    ensures ForSession(s.store.rows, target.id, session)
    ensures ok ==> ShownSince(s.driver, mark, target.id, url)
    ensures OpensNow(s, was, session, mark, target.id, url)
    ensures s.Reliable() ==> ok
  {
    ok := OpenInWindow(s, target, url, focus, session);
    ExpandsTwice(was, old(s.store.rows), s.store.rows, mark.known, old(s.driver.known));
    FoundIsOpened(was, old(s.store.rows), s.store.rows, old(s.driver.requested), s.driver.requested, s.lastFocused,
                  session, s.driver.listings[mark.listed], mark.known, target, url);
  }

  /** The session's window or nobody's, after restoring the session's windows if
      none is there. */
  method FindTarget(s: Service, session: SessionId) returns (ok: bool, target: Option<Window>)
    requires s.Valid()
    modifies s.store, s.driver`known, s.driver`listings, s.driver`requested, s`snapshots, s`closing, s.driver`commands
    modifies s`clock, s`restoreUntil, s`placeStale
    ensures s.Valid() && s.Grew()
    ensures Extends(old(s.store.rows), s.store.rows, old(s.driver.known), session)
    ensures target.Some? ==> ForSession(s.store.rows, target.value.id, session) && target.value.id in s.driver.known
    ensures target.Some? ==> Seen(s, target.value)
    ensures ok ==> FoundNow(s, old(s.store.rows), session, old(MarkOf(s.driver)), target)
    ensures ok && s.Reliable() && s.connected && session != 0
            && NoneThere(old(s.store.rows), session, s.driver.listings[|old(s.driver.listings)|]) ==>
              LeftMissing(s.store.rows, session)
    ensures s.Reliable() ==> ok
  {
    ok, target := false, None;
    var live := s.List();
    if live.Some? {
      assert s.driver.listings[|old(s.driver.listings)|] == live.value;
      ok, target := FindOrRestore(s, session, live.value);
      assert ListedNow(s, live.value);
    }
  }

  method FindOrRestore(s: Service, session: SessionId, live: seq<Window>) returns (ok: bool, target: Option<Window>)
    requires s.Valid() && s.Latest(live)
    modifies s.store, s.driver`known, s.driver`listings, s.driver`requested, s`snapshots, s`closing, s.driver`commands
    modifies s`clock, s`restoreUntil, s`placeStale
    ensures s.Valid() && s.Grew()
    ensures Extends(old(s.store.rows), s.store.rows, old(s.driver.known), session)
    ensures target.Some? ==> ForSession(s.store.rows, target.value.id, session) && target.value.id in s.driver.known
    ensures target.Some? ==> target.value in live || Seen(s, target.value)
    ensures ok ==>
              Finds(old(s.store.rows), s.store.rows, s.driver.requested, s.lastFocused, session, live,
                    old(s.driver.known), target)
    ensures s.Reliable() && s.connected && session != 0 && NoneThere(old(s.store.rows), session, live) ==>
              LeftMissing(s.store.rows, session)
    ensures s.Reliable() ==> ok
  {
    ok, target := TargetWindow(s, session, live);
    if target.Some? {
      if session != 0 {
        ghost var id :| IsTarget(s.store.rows, session, live, id) && s.store.rows[id].window == target.value.id;
      }
    } else if ok && session != 0 {
      ok, target := RestoreTarget(s, session);
    }
  }

  /** Restores the session's windows; the first one is to be used, as it is
      listed then. */
  method RestoreTarget(s: Service, session: SessionId) returns (ok: bool, target: Option<Window>)
    requires s.Valid()
    modifies s.store, s.driver`known, s.driver`listings, s.driver`requested, s`snapshots, s`closing, s.driver`commands
    modifies s`clock, s`restoreUntil, s`placeStale
    ensures s.Valid() && s.Grew()
    ensures Extends(old(s.store.rows), s.store.rows, old(s.driver.known), session)
    ensures target.Some? ==>
              OwnedBy(s.store.rows, target.value.id, session) && target.value.id in s.driver.known - old(s.driver.known)
    ensures target.Some? ==>
              FirstRestored(old(s.store.rows), s.store.rows, s.driver.requested, session, target.value.id)
    ensures ok && target.Some? ==> AsListed(s.driver, target.value)
    ensures ok && target.None? ==> NoneReopened(old(s.store.rows), s.store.rows)
    ensures s.Reliable() && s.connected ==> LeftMissing(s.store.rows, session)
    ensures s.Reliable() ==> ok
  {
    ok, target := RestoreFirst(s, session);
    if target.Some? {
      ok, target := Relist(s, target.value);
    }
  }

  /** Restores the session's windows; the first one, if any. */
  method RestoreFirst(s: Service, session: SessionId) returns (ok: bool, target: Option<Window>)
    requires s.Valid()
    modifies s.store, s.driver`known, s.driver`listings, s.driver`requested, s`snapshots, s`closing, s.driver`commands
    modifies s`clock, s`restoreUntil, s`placeStale
    ensures s.Valid() && s.Grew()
    ensures Extends(old(s.store.rows), s.store.rows, old(s.driver.known), session)
    ensures target.Some? ==>
              OwnedBy(s.store.rows, target.value.id, session) && target.value.id in s.driver.known - old(s.driver.known)
    ensures target.Some? ==>
              FirstRestored(old(s.store.rows), s.store.rows, s.driver.requested, session, target.value.id)
    ensures ok && target.None? ==> NoneReopened(old(s.store.rows), s.store.rows)
    ensures s.Reliable() && s.connected ==> LeftMissing(s.store.rows, session)
    ensures s.Reliable() ==> ok
  {
    var restored;
    ghost var waiting;
    ok, restored, waiting := Restore(s, session);
    target := None;
    if |restored| == 0 {
      NoneWasReopened(old(s.store.rows), s.store.rows, s.driver.requested);
      var unavailable := s.driver.Answers();
      ok := ok || !unavailable;
    } else {
      FirstIsOpened(old(s.store.rows), s.store.rows, s.driver.requested, restored, old(s.driver.known), session);
      assert OwnedBy(s.store.rows, restored[0].id, session);
      ok, target := true, Some(restored[0]);
    }
  }

  /** If the latest listing shows the window, this is what it shows. */
  ghost predicate AsListed(d: Driver, v: Window)
    reads d
  {
    d.listings != [] && LastSeen(d, v.id) in {None, Some(v)}
  }

  /** The window as it is listed now, or as it was given. */
  method Relist(s: Service, w: Window) returns (ok: bool, v: Option<Window>)
    requires s.Valid()
    modifies s.store`log, s.store`ledger, s.driver`known, s.driver`listings
    ensures s.Valid() && s.Grew()
    ensures v.Some? <==> ok
    ensures ok ==> v.value.id == w.id && AsListed(s.driver, v.value)
    ensures s.Reliable() ==> ok
  {
    v := None;
    var again := s.List();
    ok := again.Some?;
    if ok {
      v := FindWindow(again.value, w.id);
      if v.None? {
        v := Some(w);
      }
    }
  }

  /** Opens a new window for the session, or a window of nobody's. */
  method OpenInNew(s: Service, session: SessionId, url: Url) returns (ok: bool, window: WindowId)
    requires s.Valid()
    modifies s.store, s.driver`known, s.driver`listings, s.driver`requested, s`clock, s`unowned, s`daemonUnowned
    ensures s.Valid() && s.Grew()
    ensures Expands(old(s.store.rows), s.store.rows, old(s.driver.known))
    ensures ok ==>
              && window !in old(s.driver.known) && window in s.driver.requested
              && s.driver.requested[window] == FromUrls([url])
    ensures ok ==> ForSession(s.store.rows, window, session)
    ensures session == 0 ==> s.store.rows == old(s.store.rows)
    ensures ok && session == 0 ==> window in s.unowned && window in s.daemonUnowned
    ensures Marks(old(s.unowned), s.unowned, session, window)
    ensures Marks(old(s.daemonUnowned), s.daemonUnowned, session, window)
    ensures Adds(old(s.store.rows), s.store.rows)
    ensures s.Reliable() ==> ok
  {
    var w := s.driver.NewWindow(FromUrls([url]));
    ok, window := w.Some?, "";
    if ok {
      window := w.value.id;
      if session == 0 {
        s.unowned, s.daemonUnowned := s.unowned + {window}, s.daemonUnowned + {window};
      } else {
        var now := s.Now();
        var tabs := SavedTabs(w.value);
        ok := s.AddOpenRow(Row(session, Open, window, now, tabs, now));
      }
    }
  }

  /** Shows the URL in a window that is there: in the tab that stands for it,
      or in a new tab. */
  method OpenInWindow(s: Service, target: Window, url: Url, focus: bool, ghost session: SessionId) returns (ok: bool)
    requires s.Valid() && s.connected
    requires ForSession(s.store.rows, target.id, session) && target.id in s.driver.known
    modifies s.store, s.driver`known, s.driver`listings, s.driver`requested, s.driver`openings, s`snapshots, s`closing
    modifies s.driver`commands, s`clock, s`restoreUntil
    modifies s`placeStale, s`ensuredFor, s`placedFor
    ensures s.Valid() && s.Grew()
    ensures Expands(old(s.store.rows), s.store.rows, old(s.driver.known))
    ensures ForSession(s.store.rows, target.id, session)
    ensures !focus ==> s.store.rows == old(s.store.rows)
    ensures ok && HasMatch(target.tabs, url) ==>
              |s.driver.commands| > |old(s.driver.commands)| && ActivatedLast(s.driver.commands, target, url)
    ensures ok && !HasMatch(target.tabs, url) ==>
              && |s.driver.openings| > |old(s.driver.openings)|
              && s.driver.openings[|s.driver.openings| - 1] == (target.id, url)
    ensures s.Reliable() ==> ok
  {
    if focus {
      EnsurePlaced(s);
      if session != 0 {
        StillOwned(old(s.store.rows), s.store.rows, target.id, session);
      }
    }
    var found, tab, at := MatchTab(target.tabs, url);
    if found {
      ok := s.driver.Send(Activate(target.id, tab.id));
      assert BestMatch(target.tabs, url, at) && s.driver.commands[|s.driver.commands| - 1] ==
             Activate(target.id, target.tabs[at].id);
    } else {
      var opens := s.OpenTab(target.id, url);
      ok := opens.Some?;
    }
  }

  /** The last command activated the tab of the window that stands best for the
      URL. */
  ghost predicate ActivatedLast(commands: seq<Command>, w: Window, url: Url) {
    && commands != []
    && exists at: nat :: BestMatch(w.tabs, url, at) && commands[|commands| - 1] == Activate(w.id, w.tabs[at].id)
  }

  // --- holding URLs -----------------------------------------------------------------

  function HeldTab(url: Url): SavedTab {
    SavedTab(url, "", false, false, true)
  }

  /** The row with the URL waiting in it. */
  function WithHeld(row: Row, url: Url): Row {
    if HasSaved(row.tabs, url) then row else row.(tabs := row.tabs + [HeldTab(url)])
  }

  /** The row a URL is held in: the session's most recently focused open row,
      else its most recently focused closed one. */
  ghost predicate HoldsFor(rows: Table, session: SessionId, id: RowId) {
    if OpenOf(rows, session) != {} then
      && id in OpenOf(rows, session)
      && forall j :: j in OpenOf(rows, session) ==> MoreRecent(Stored(id, rows[id]), Stored(j, rows[j]))
    else
      && id in RestorableOf(rows, session)
      && forall j :: j in RestorableOf(rows, session) ==> MoreRecent(Stored(id, rows[id]), Stored(j, rows[j]))
  }

  method HoldTarget(s: Service, session: SessionId) returns (ok: bool, r: Option<Stored>)
    requires s.Valid()
    ensures ok && r.Some? ==>
              && HoldsFor(s.store.rows, session, r.value.id) && r.value.id in s.store.rows
              && r.value.row == s.store.rows[r.value.id]
    ensures ok && r.None? ==> OpenOf(s.store.rows, session) == {} && RestorableOf(s.store.rows, session) == {}
    ensures s.Reliable() ==> ok
  {
    var opens := s.store.ListOpenBySession(session);
    if opens.None? {
      return false, None;
    }
    FirstIsTarget(s.store.rows, OpenOf(s.store.rows, session), opens.value);
    if |opens.value| > 0 {
      return true, Some(opens.value[0]);
    }
    var closed := s.store.ListRestorable(session);
    if closed.None? {
      return false, None;
    }
    FirstIsTarget(s.store.rows, RestorableOf(s.store.rows, session), closed.value);
    ok, r := true, if |closed.value| > 0 then Some(closed.value[0]) else None;
  }

  lemma FirstIsTarget(rows: Table, ids: set<RowId>, list: seq<Stored>)
    requires Lists(rows, ids, list) && ByRecency(list)
    ensures list == [] <==> ids == {}
    ensures list != [] ==> list[0].id in ids && list[0] == Stored(list[0].id, rows[list[0].id])
    ensures list != [] ==> forall j :: j in ids ==> j in rows && MoreRecent(list[0], Stored(j, rows[j]))
  {
    if list != [] {
      assert list[0].id in ids;
      forall j | j in ids ensures j in rows && MoreRecent(list[0], Stored(j, rows[j])) {
        var k :| 0 <= k < |list| && list[k].id == j;
        assert list[k] == Stored(j, rows[j]);
      }
    }
  }

  /** Keeps a URL for a session that is not in front: shown at once if its
      window has it or is focused, else waiting in the session's row. */
  method Hold(s: Service, session: SessionId, url: Url) returns (ok: bool, pending: bool, window: WindowId)
    requires s.Valid()
    modifies s.store, s.driver`known, s.driver`listings, s.driver`openings, s.driver`commands, s`clock
    ensures s.Valid() && s.Grew()
    ensures Extends(old(s.store.rows), s.store.rows, {}, session) && Owned(s.store.rows) == Owned(old(s.store.rows))
    ensures !(ok && pending) ==> s.store.rows == old(s.store.rows)
    ensures ok && pending ==> IsHeld(old(s.store.rows), s.store.rows, session, url)
    ensures ok && !pending ==> OwnedBy(s.store.rows, window, session) && Displays(s, window, url)
    ensures ok ==> HeldOrShown(s, old(s.store.rows), session, |old(s.driver.listings)|, window, url, pending)
    ensures s.Reliable() ==> ok
  {
    window, pending := "", false;
    var r;
    ok, r := HoldTarget(s, session);
    if ok {
      if r.None? {
        pending := true;
        ok := HoldInNew(s, session, url);
      } else {
        window := r.value.row.window;
        ok, pending := HoldInRow(s, session, r.value, url);
      }
    }
  }

  /** A held URL waits, unless the session has an open row: then it waits if its
      window, by the listing made for that, cannot show it at once. */
  ghost predicate HeldOrShown(s: Service, rows: Table, session: SessionId, listed: nat, window: WindowId, url: Url,
                              pending: bool)
    reads s, s.driver
  {
    if s.connected && OpenOf(rows, session) != {} then
      && listed < |s.driver.listings| && IsHoldWindow(rows, session, window)
      && (pending <==> !Showable(FirstListed(s.driver.listings[listed], window), url))
    else pending
  }

  ghost predicate IsHoldWindow(rows: Table, session: SessionId, window: WindowId) {
    exists id :: HoldsFor(rows, session, id) && rows[id].window == window
  }

  /** Shows a URL in the row's window or makes it wait in the row. */
  method HoldInRow(s: Service, session: SessionId, r: Stored, url: Url) returns (ok: bool, pending: bool)
    requires s.Valid() && HoldsFor(s.store.rows, session, r.id) && r.row == s.store.rows[r.id]
    modifies s.store, s.driver`known, s.driver`listings, s.driver`openings, s.driver`commands
    ensures s.Valid() && s.Grew()
    ensures Extends(old(s.store.rows), s.store.rows, {}, session) && Owned(s.store.rows) == Owned(old(s.store.rows))
    ensures !(ok && pending) ==> s.store.rows == old(s.store.rows)
    ensures ok && pending ==> HeldAt(old(s.store.rows), s.store.rows, session, url, r.id)
    ensures ok && !pending ==> r.row.state.Open? && Displays(s, r.row.window, url)
    ensures ok && s.connected && r.row.state.Open? ==>
              && |s.driver.listings| == |old(s.driver.listings)| + 1
              && (pending <==> !Showable(FirstListed(s.driver.listings[|old(s.driver.listings)|], r.row.window), url))
    ensures ok && !(s.connected && r.row.state.Open?) ==> pending
    ensures s.Reliable() ==> ok
  {
    ok, pending := true, true;
    if r.row.state.Open? && s.connected {
      var shown;
      ok, shown := ActivateHeld(s, r.row.window, url);
      pending := ok && !shown;
    }
    if pending {
      ok := KeepHeld(s, r.id, url);
    }
  }

  /** Makes a URL wait in the row, unless a saved tab stands for it. */
  method KeepHeld(s: Service, id: RowId, url: Url) returns (ok: bool)
    requires s.Valid() && id in s.store.rows
    modifies s.store
    ensures s.Valid() && s.Grew()
    ensures Extends(old(s.store.rows), s.store.rows, {}, old(s.store.rows)[id].session)
    ensures Owned(s.store.rows) == Owned(old(s.store.rows))
    ensures id in s.store.rows && s.store.rows[id].session == old(s.store.rows)[id].session
    ensures !ok ==> s.store.rows == old(s.store.rows)
    ensures ok ==> s.store.rows == old(s.store.rows)[id := WithHeld(old(s.store.rows)[id], url)]
    ensures s.Reliable() ==> ok
  {
    ok := true;
    var saved := HasSavedUrl(s.store.rows[id].tabs, url);
    if !saved {
      ok := HoldIn(s, id, url);
    }
  }

  /** Row `id` waits for the URL and nothing else changed: the session's row to
      hold in, unless a saved tab stands for the URL already, or a new one for a
      session that has none. */
  ghost predicate HeldAt(rows: Table, rows': Table, session: SessionId, url: Url, id: RowId) {
    && id in rows' && rows' == rows[id := rows'[id]]
    && if id in rows then HoldsFor(rows, session, id) && rows'[id] == WithHeld(rows[id], url)
       else
         && OpenOf(rows, session) == {} && RestorableOf(rows, session) == {}
         && rows'[id] == Row(session, Snapshotted, "", rows'[id].focusedAt, [HeldTab(url)], 0)
  }

  ghost predicate IsHeld(rows: Table, rows': Table, session: SessionId, url: Url) {
    exists id :: HeldAt(rows, rows', session, url, id)
  }

  method HoldInNew(s: Service, session: SessionId, url: Url) returns (ok: bool)
    requires s.Valid()
    modifies s.store, s`clock
    ensures s.Valid() && s.Grew()
    ensures Extends(old(s.store.rows), s.store.rows, {}, session) && Owned(s.store.rows) == Owned(old(s.store.rows))
    ensures !ok ==> s.store.rows == old(s.store.rows)
    requires OpenOf(s.store.rows, session) == {} && RestorableOf(s.store.rows, session) == {}
    ensures ok ==> IsHeld(old(s.store.rows), s.store.rows, session, url)
    ensures s.Reliable() ==> ok
  {
    s.store.Tidy();
    var now := s.Now();
    var row := Row(session, Snapshotted, "", now, [HeldTab(url)], 0);
    ClosedRowEffects(s.store.rows, s.store.nextId, row);
    ok := s.store.Add(row);
    assert ok ==> HeldAt(old(s.store.rows), s.store.rows, session, url, old(s.store.nextId));
  }

  lemma ClosedRowEffects(rows: Table, id: RowId, row: Row)
    requires id !in rows && !row.state.Open?
    ensures Extends(rows, rows[id := row], {}, row.session) && Owned(rows[id := row]) == Owned(rows)
  {
    var rows' := rows[id := row];
    forall w | w in Owned(rows) ensures w in Owned(rows') {
      var j :| j in rows && rows[j].state.Open? && rows[j].window == w;
      assert rows'[j] == rows[j];
    }
  }

  method HoldIn(s: Service, id: RowId, url: Url) returns (ok: bool)
    requires s.Valid() && id in s.store.rows
    modifies s.store
    ensures s.Valid() && s.Grew()
    ensures Extends(old(s.store.rows), s.store.rows, {}, old(s.store.rows)[id].session)
    ensures Owned(s.store.rows) == Owned(old(s.store.rows))
    ensures s.store.rows.Keys == old(s.store.rows).Keys && s.store.rows[id].session == old(s.store.rows)[id].session
    ensures !ok ==> s.store.rows == old(s.store.rows)
    ensures ok ==> s.store.rows == WithTabs(old(s.store.rows), id, old(s.store.rows)[id].tabs + [HeldTab(url)])
    ensures s.Reliable() ==> ok
  {
    var t := HeldTab(url);
    HeldEffects(s.store.rows, id, t);
    ok := s.store.SetTabs(id, s.store.rows[id].tabs + [t], Held(id, t));
  }

  lemma HeldEffects(rows: Table, id: RowId, t: SavedTab)
    requires id in rows
    ensures var rows' := WithTabs(rows, id, rows[id].tabs + [t]);
            Extends(rows, rows', {}, rows[id].session) && Owned(rows') == Owned(rows)
  {
    var rows' := WithTabs(rows, id, rows[id].tabs + [t]);
    assert forall j :: j in rows ==> rows'[j].window == rows[j].window && rows'[j].state == rows[j].state;
  }

  /** Whether a held URL can be shown at once in a window: a tab stands for it
      or the window has the focus. */
  predicate Showable(v: Option<Window>, url: Url) {
    v.Some? && (HasMatch(v.value.tabs, url) || v.value.focused)
  }

  /** Shows a held URL at once: in the live tab that stands for it, or in a new
      tab when its window has the focus. */
  method ActivateHeld(s: Service, w: WindowId, url: Url) returns (ok: bool, shown: bool)
    requires s.Valid()
    modifies s.store, s.driver`known, s.driver`listings, s.driver`openings, s.driver`commands
    ensures s.Valid() && s.Grew() && s.store.rows == old(s.store.rows)
    ensures !ok ==> !shown
    ensures shown ==> Displays(s, w, url)
    ensures ok ==> |s.driver.listings| == |old(s.driver.listings)| + 1
    ensures ok ==> (shown <==> Showable(FirstListed(s.driver.listings[|old(s.driver.listings)|], w), url))
    ensures |s.driver.openings| > |old(s.driver.openings)| ==>
              exists v: Window :: v.id == w && v.focused && !HasMatch(v.tabs, url) && Seen(s, v)
    ensures s.Reliable() ==> ok
  {
    shown := false;
    var live := s.List();
    ok := live.Some?;
    if ok {
      var v := FindWindow(live.value, w);
      if v.Some? {
        ok, shown := ShowHeld(s, v.value, url);
      }
    }
  }

  /** Shows a URL in a listed window, if it can be shown at once. */
  method ShowHeld(s: Service, v: Window, url: Url) returns (ok: bool, shown: bool)
    requires s.Valid()
    modifies s.store, s.driver`openings, s.driver`commands
    ensures s.Valid() && s.Grew() && s.store.rows == old(s.store.rows)
    ensures !ok ==> !shown
    ensures ok ==> (shown <==> Showable(Some(v), url))
    ensures shown && HasMatch(v.tabs, url) ==>
              |s.driver.commands| > |old(s.driver.commands)| && ActivatedLast(s.driver.commands, v, url)
    ensures shown && !HasMatch(v.tabs, url) ==>
              && |s.driver.openings| > |old(s.driver.openings)|
              && s.driver.openings[|s.driver.openings| - 1] == (v.id, url)
    ensures s.driver.openings != old(s.driver.openings) ==> v.focused && !HasMatch(v.tabs, url)
    ensures s.Reliable() ==> ok
  {
    ok, shown := true, false;
    var found, tab, at := MatchTab(v.tabs, url);
    if found {
      ok := s.driver.Send(Activate(v.id, tab.id));
      assert BestMatch(v.tabs, url, at) && s.driver.commands[|s.driver.commands| - 1] == Activate(v.id, v.tabs[at].id);
      shown := ok;
    } else if v.focused {
      var opens := s.OpenTab(v.id, url);
      ok := opens.Some?;
      shown := ok;
    }
  }

  // --- the whole of opening ---------------------------------------------------------

  /** What is known of the session: nothing, an error, or whether it is the
      attached one. */
  datatype SessionQuery = Unknown | Error | Known(attached: bool)

  /** The session a request is for: the attached one if it asks for that, and
      none if it is not known. */
  function Meant(session: SessionId, current: Option<SessionId>, query: SessionQuery): SessionId {
    var asked := if session == 0 && current.Some? then current.value else session;
    if query.Unknown? then 0 else asked
  }

  /** Opens a URL on request. `current` is given when the request is for the
      attached session: that session, if there is one; `query` is what is known
      of the session, or that asking for it or for the attached one failed. */
  method OpenRequest(s: Service, session: SessionId, current: Option<SessionId>, url: Url, activate: bool,
                     query: SessionQuery)
    returns (ok: bool, window: WindowId, pending: bool)
    requires s.Valid()
    modifies s.store, s.driver`known, s.driver`listings, s.driver`requested, s.driver`openings, s`snapshots, s`closing
    modifies s.driver`commands, s`clock, s`restoreUntil
    modifies s`placeStale, s`ensuredFor, s`placedFor, s`unowned, s`daemonUnowned, s`attached
    ensures s.Valid() && s.Grew()
    ensures Expands(old(s.store.rows), s.store.rows, old(s.driver.known))
    ensures query.Error? && (session != 0 || current.Some?) ==> !ok && s.store.rows == old(s.store.rows)
    ensures ok && !pending ==> Displays(s, window, url)
    ensures ok && !pending ==> ForSession(s.store.rows, window, Meant(session, current, query))
    ensures ok && (!s.loadTakesFocus || query != Known(false) || activate) ==>
              OpensNow(s, old(s.store.rows), Meant(session, current, query), old(MarkOf(s.driver)), window, url)
    ensures ok && s.loadTakesFocus && query == Known(false) && !activate && Meant(session, current, query) != 0 ==>
              HeldOrShown(s, old(s.store.rows), Meant(session, current, query), |old(s.driver.listings)|, window, url,
                          pending)
    ensures ok && pending ==> IsHeld(old(s.store.rows), s.store.rows, Meant(session, current, query), url)
    ensures pending ==> Meant(session, current, query) != 0 && s.loadTakesFocus && query == Known(false) && !activate
    ensures ok && Meant(session, current, query) != 0 && query == Known(false) && activate ==>
              s.attached == Meant(session, current, query)
    ensures s.Reliable() && s.connected && !(query.Error? && (session != 0 || current.Some?)) ==> ok
  {
    window, pending := "", false;
    var target := if session == 0 && current.Some? then current.value else session;
    var focus, activated := true, false;
    if query.Error? && (session != 0 || current.Some?) {
      return false, "", false;
    }
    if target != 0 {
      match query
      case Unknown => target := 0;
      case Known(attached) =>
        activated := activate && !attached;
        focus := attached || activated;
    }
    if !focus && s.loadTakesFocus {
      ok, pending, window := Hold(s, target, url);
      HoldExpands(old(s.store.rows), s.store.rows, old(s.driver.known));
      return;
    }
    if !s.connected {
      return false, "", false;
    }
    ok, window := OpenFor(s, target, url, focus, activated);
  }

  /** Opens a URL for a session that is activated first if asked, and in front
      then. */
  method OpenFor(s: Service, session: SessionId, url: Url, focus: bool, activated: bool)
    returns (ok: bool, window: WindowId)
    requires s.Valid() && (activated ==> focus && session != 0)
    modifies s.store, s.driver`known, s.driver`listings, s.driver`requested, s.driver`openings, s`snapshots, s`closing
    modifies s.driver`commands, s`clock, s`restoreUntil
    modifies s`placeStale, s`ensuredFor, s`placedFor, s`unowned, s`daemonUnowned, s`attached
    ensures s.Valid() && s.Grew()
    ensures Expands(old(s.store.rows), s.store.rows, old(s.driver.known))
    ensures ok ==> ForSession(s.store.rows, window, session)
    ensures ok ==> Displays(s, window, url)
    ensures ok ==> OpensNow(s, old(s.store.rows), session, old(MarkOf(s.driver)), window, url)
    ensures ok && focus && session != 0 ==> s.attached == session
    ensures s.Reliable() && s.connected ==> ok
  {
    if activated {
      ok := s.driver.Answers();
      if !ok {
        return false, "";
      }
    }
    if focus && session != 0 {
      s.SetAttached(session);
    }
    ok, window := OpenUrl(s, session, url, focus);
  }

  lemma HoldExpands(rows: Table, rows': Table, known: set<WindowId>)
    requires Expands(rows, rows', {}) && Owned(rows') == Owned(rows)
    ensures Expands(rows, rows', known)
  {
  }

  // --- ejecting and moving ------------------------------------------------------------

  /** Gives up a window of a session: its row is forgotten, and no snapshot or
      removal waits for it. */
  method Eject(s: Service, session: SessionId, w: WindowId) returns (ok: bool)
    requires s.Valid()
    modifies s.store, s.driver`known, s.driver`listings, s`snapshots, s`removals
    ensures s.Valid() && s.Grew()
    ensures !ok ==>
              s.store.rows == old(s.store.rows) && s.snapshots == old(s.snapshots) && s.removals == old(s.removals)
    ensures ok ==> OwnedBy(old(s.store.rows), w, session) && s.store.rows == WithoutWindow(old(s.store.rows), w)
    ensures ok ==> s.snapshots == old(s.snapshots) - {w} && s.removals == old(s.removals) - {w}
    ensures ok ==>
              && |s.driver.listings| == |old(s.driver.listings)| + 1
              && w in ListedIds(s.driver.listings[|old(s.driver.listings)|])
    ensures !s.connected ==> !ok
    ensures s.Reliable() && s.connected && OwnedBy(old(s.store.rows), w, session) ==>
              && |s.driver.listings| == |old(s.driver.listings)| + 1
              && (ok <==> w in ListedIds(s.driver.listings[|old(s.driver.listings)|]))
  {
    ok := false;
    if s.connected {
      var owned, id := OwnedRow(s, session, w);
      if owned {
        ok := EjectListed(s, id, w);
      }
    }
  }

  /** Forgets a row and the timers of its window, if that is listed. */
  method EjectListed(s: Service, id: RowId, w: WindowId) returns (ok: bool)
    requires s.Valid() && id in s.store.rows && Holds(s.store.rows[id], w) && w != ""
    modifies s.store, s.driver`known, s.driver`listings, s`snapshots, s`removals
    ensures s.Valid() && s.Grew()
    ensures s.store.rows == if ok then WithoutWindow(old(s.store.rows), w) else old(s.store.rows)
    ensures s.snapshots == if ok then old(s.snapshots) - {w} else old(s.snapshots)
    ensures s.removals == if ok then old(s.removals) - {w} else old(s.removals)
    ensures ok ==>
              && |s.driver.listings| == |old(s.driver.listings)| + 1
              && w in ListedIds(s.driver.listings[|old(s.driver.listings)|])
    ensures s.Reliable() ==>
              && |s.driver.listings| == |old(s.driver.listings)| + 1
              && (ok <==> w in ListedIds(s.driver.listings[|old(s.driver.listings)|]))
  {
    ok := false;
    var live := s.List();
    if live.Some? {
      var v := FindWindow(live.value, w);
      if v.Some? {
        ok := ForgetRow(s, id, w);
      }
    }
    if ok {
      s.snapshots, s.removals := s.snapshots - {w}, s.removals - {w};
    }
  }

  /** The session's row that owns the window. */
  method OwnedRow(s: Service, session: SessionId, w: WindowId) returns (found: bool, id: RowId)
    requires s.Valid()
    ensures found ==> w != "" && id in s.store.rows && Holds(s.store.rows[id], w) && s.store.rows[id].session == session
    ensures s.Reliable() && OwnedBy(s.store.rows, w, session) ==> found
  {
    s.store.Tidy();
    var r := s.store.GetByWindow(w);
    if r.Found? && r.row.session == session {
      return true, r.id;
    }
    found, id := false, 0;
  }

  method ForgetRow(s: Service, id: RowId, w: WindowId) returns (ok: bool)
    requires s.Valid() && id in s.store.rows && Holds(s.store.rows[id], w) && w != ""
    modifies s.store
    ensures s.Valid() && s.Grew()
    ensures s.store.rows == if ok then WithoutWindow(old(s.store.rows), w) else old(s.store.rows)
    ensures s.Reliable() ==> ok
  {
    s.store.Tidy();
    ReleaseEffects(s.store.rows, s.store.rows - {id});
    ok := s.store.Delete(id, Ejected(id));
  }

  predicate HasTab(v: Option<Window>, tab: string) {
    v.Some? && exists t :: t in v.value.tabs && t.id == tab
  }

  /** The listed window of the session that holds the tab. */
  method FocusTarget(s: Service, session: SessionId, w: WindowId, tab: string) returns (live: Option<seq<Window>>)
    requires s.Valid()
    modifies s.store`log, s.store`ledger, s.driver`known, s.driver`listings
    ensures s.Valid() && s.Grew()
    ensures live.Some? ==> s.driver.listings == old(s.driver.listings) + [live.value] && s.Latest(live.value)
    ensures live.Some? ==>
              ListedIds(live.value) <= s.driver.known && w in ListedIds(live.value) && OwnedBy(s.store.rows, w, session)
    ensures live.Some? ==> exists v :: v in live.value && v.id == w && exists t :: t in v.tabs && t.id == tab
    ensures s.Reliable() && OwnedBy(s.store.rows, w, session) ==>
              && |s.driver.listings| == |old(s.driver.listings)| + 1
              && (live.Some? <==> HasTab(FirstListed(s.driver.listings[|old(s.driver.listings)|], w), tab))
  {
    live := None;
    var owned, _ := OwnedRow(s, session, w);
    if !owned {
      return;
    }
    var listed := s.List();
    if listed.None? {
      return;
    }
    var v := FindWindow(listed.value, w);
    if v.Some? && exists t :: t in v.value.tabs && t.id == tab {
      live := listed;
    }
  }

  /** Moves a tab of one session's window to another session: into its window,
      or detached into a new one that the other session then owns. */
  method MoveTab(s: Service, session: SessionId, w: WindowId, tab: string, to: SessionId)
    returns (ok: bool, window: WindowId, created: bool)
    requires s.Valid() && to != 0
    modifies s.store, s.driver`known, s.driver`listings, s.driver`requested, s`snapshots, s`closing, s.driver`commands
    modifies s`clock
    ensures s.Valid() && s.Grew()
    ensures Extends(old(s.store.rows), s.store.rows, old(s.driver.known), to)
    ensures ok ==> OwnedBy(old(s.store.rows), w, session) && OwnedBy(s.store.rows, window, to)
    ensures ok ==> (created <==> window !in old(s.driver.known))
    ensures !ok || !created ==> s.store.rows == old(s.store.rows)
    ensures ok && created ==> window in s.driver.requested && s.driver.requested[window] == FromTab(w, tab)
    ensures ok && !created ==>
              s.driver.commands == old(s.driver.commands) + [Move(w, tab, window)] + [Activate(window, tab)]
    ensures !s.connected ==> !ok
    ensures ok ==> |s.driver.listings| > |old(s.driver.listings)|
    ensures ok ==> MovesTo(old(s.store.rows), to, s.driver.listings[|old(s.driver.listings)|], window, created)
    ensures s.Reliable() && s.connected && OwnedBy(old(s.store.rows), w, session) ==>
              |s.driver.listings| > |old(s.driver.listings)|
    ensures s.Reliable() && s.connected && OwnedBy(old(s.store.rows), w, session) ==>
              (ok <==> HasTab(FirstListed(s.driver.listings[|old(s.driver.listings)|], w), tab))
  {
    window, created := "", false;
    if !s.connected {
      return false, "", false;
    }
    var live := FocusTarget(s, session, w, tab);
    if live.None? {
      return false, "", false;
    }
    ok, window, created := MoveListed(s, w, tab, to, live.value);
  }

  /** The session's most recently focused listed window, or a new one if none of
      its windows is listed. */
  ghost predicate MovesTo(rows: Table, session: SessionId, live: seq<Window>, window: WindowId, created: bool) {
    if created then forall id :: id in OpenOf(rows, session) ==> rows[id].window !in ListedIds(live)
    else exists id :: IsTarget(rows, session, live, id) && rows[id].window == window
  }

  method MoveListed(s: Service, w: WindowId, tab: string, to: SessionId, live: seq<Window>)
    returns (ok: bool, window: WindowId, created: bool)
    requires s.Valid() && to != 0 && ListedIds(live) <= s.driver.known
    modifies s.store, s.driver`known, s.driver`listings, s.driver`requested, s`snapshots, s`closing, s.driver`commands
    modifies s`clock
    ensures s.Valid() && s.Grew()
    ensures Extends(old(s.store.rows), s.store.rows, old(s.driver.known), to)
    ensures ok ==> OwnedBy(s.store.rows, window, to) && (created <==> window !in old(s.driver.known))
    ensures ok ==> MovesTo(old(s.store.rows), to, live, window, created)
    ensures !ok || !created ==> s.store.rows == old(s.store.rows)
    ensures ok && created ==> window in s.driver.requested && s.driver.requested[window] == FromTab(w, tab)
    ensures ok && !created ==>
              s.driver.commands == old(s.driver.commands) + [Move(w, tab, window)] + [Activate(window, tab)]
    ensures s.Reliable() ==> ok
  {
    window, created := "", false;
    var target;
    ok, target := TargetWindow(s, to, live);
    if ok && target.Some? {
      ghost var id :| IsTarget(s.store.rows, to, live, id) && s.store.rows[id].window == target.value.id;
      window := target.value.id;
      ok := MoveInto(s, w, tab, window);
    } else if ok {
      var v := CreateSessionWindow(s, to, FromTab(w, tab));
      ok := v.Some?;
      if ok {
        window, created := v.value.id, true;
      }
    }
  }

  method MoveInto(s: Service, w: WindowId, tab: string, window: WindowId) returns (ok: bool)
    modifies s.driver`commands
    ensures s.driver.commands ==
            old(s.driver.commands) + [Move(w, tab, window)] + if ok then [Activate(window, tab)] else []
    ensures s.Reliable() ==> ok
  {
    ok := s.driver.Send(Move(w, tab, window));
    if ok {
      var _ := s.driver.Send(Activate(window, tab));
    }
  }
}
