/** The browser service: which windows belong to which session, through
    browser events, user requests, disconnects and browser restarts. Every
    method is one step under the service's lock; the browser and the store may
    fail at any call. */
module BrowserService {
  import opened BrowserTypes
  import opened BrowserTabs
  import opened WindowTable
  import opened BrowserStore
  import opened BrowserDriver
  import opened BrowserEffects
  import Reattach
  import ReattachTheory

  class Service {
    const store: Store
    const driver: Driver
    const restoreWindow: Time
    const loadTakesFocus: bool

    var connected: bool
    var attached: SessionId
    var clock: Time
    var lastFocused: WindowId
    var prevFocused: WindowId
    var unowned: set<WindowId>
    var daemonUnowned: set<WindowId>
    var reattachRejected: set<WindowId>
    var closing: set<WindowId>
    var deferredAdopt: map<WindowId, SessionId>
    var pendingClose: map<WindowId, PendingClose>
    var run: string
    var runLoaded: bool
    var restoreUntil: Time
    var snapshots: map<WindowId, nat>
    var removals: map<WindowId, nat>
    var nextTimer: nat
    var placedFor: SessionId
    var placeStale: bool
    var ensuredFor: SessionId

    /** The table's history is legal and tells what the browser did; every owned
        window is one the browser has shown; a window whose adoption is deferred
        was announced and has no owner yet; every waiting removal belongs to
        this connection; a window to close was taken from its archived row; no
        time was entered ahead of the clock; without a restore window nothing is
        ever deferred. */
    ghost predicate Valid()
      reads this, store, driver
    {
      && store.Valid()
      && store.ledger.openings == driver.openings && store.ledger.listings == driver.listings
      && LatestKnown(driver.listings, driver.known)
      && driver.announced <= driver.known
      && Owned(store.rows) <= driver.known
      && OwnerlessWait(deferredAdopt, driver.announced, Owned(store.rows))
      && RemovalsCurrent(removals, store.ledger.closedIn, store.ledger.connection)
      && TakenFromRows(pendingClose, store.ledger.toClose)
      && store.ledger.time <= clock
      && (restoreWindow == 0 ==> restoreUntil == 0 && deferredAdopt == map[])
    }

    /** `live` is what the browser listed last. */
    ghost predicate Latest(live: seq<Window>)
      reads driver
    {
      driver.listings != [] && live == driver.listings[|driver.listings| - 1]
    }

    /** The run the service knows of. */
    function KnownRun(): string
      reads this, store
    {
      if runLoaded then run else store.runId
    }

    /** Windows that no row may be matched with. */
    ghost function Unmatchable(): set<WindowId>
      reads this, store
    {
      Owned(store.rows) + daemonUnowned + reattachRejected
    }

    /** The history and what the browser was asked only grew, in the same
        connection, and no window was announced. */
    twostate predicate Grew()
      reads this, store, driver
    {
      && old(clock) <= clock
      && old(store.log) <= store.log && store.ledger.connection == old(store.ledger.connection)
      && old(driver.known) <= driver.known && driver.announced == old(driver.announced)
      && old(driver.listings) <= driver.listings && |old(driver.openings)| <= |driver.openings|
      && |old(driver.commands)| <= |driver.commands|
    }

    /** Neither the browser nor the store ever fails to answer. */
    function Reliable(): bool {
      store.reliable && driver.reliable
    }

    constructor (restoreWindow: Time, loadTakesFocus: bool, reliable: bool)
      ensures Valid() && fresh(store) && fresh(driver) && store.log == [] && !connected && Reliable() == reliable
      ensures deferredAdopt == map[] && removals == map[]
    {
      this.restoreWindow, this.loadTakesFocus := restoreWindow, loadTakesFocus;
      store := new Store(reliable);
      driver := new Driver(reliable);
      connected, attached, clock, lastFocused, prevFocused := false, 0, 0, "", "";
      unowned, daemonUnowned, reattachRejected, closing := {}, {}, {}, {};
      deferredAdopt, pendingClose, run, runLoaded, restoreUntil := map[], map[], "", false, 0;
      snapshots, removals, nextTimer := map[], map[], 0;
      placedFor, placeStale, ensuredFor := 0, false, 0;
    }

    method Now() returns (t: Time)
      modifies this`clock
      ensures old(clock) <= t == clock
    {
      var d: int := *;
      if d > 0 { clock := clock + d; }
      t := clock;
    }

    method List() returns (live: Option<seq<Window>>)
      requires Valid()
      modifies store`log, store`ledger, driver`known, driver`listings
      ensures Valid() && Grew()
      ensures driver.listings == old(driver.listings) + if live.Some? then [live.value] else []
      ensures live.Some? ==> Latest(live.value) && ListedIds(live.value) <= driver.known
      ensures Reliable() ==> live.Some?
    {
      live := driver.ListWindows();
      if live.Some? {
        store.Note(Listed(live.value));
      }
    }

    // --- snapshots --------------------------------------------------------------

    /** Saves a live window's tabs in the row that owns it. */
    method SaveTabs(w: Window, at: Time) returns (ok: bool)
      requires Valid() && at == clock && Shown(driver.listings, w)
      modifies store
      ensures Valid() && Grew()
      ensures ok && Savable(w) ==> store.rows == WithSaved(old(store.rows), w, at)
      ensures !ok || !Savable(w) || w.id == "" ==> store.rows == old(store.rows)
      ensures Resaved(old(store.rows), store.rows)
      ensures Reliable() ==> ok
    {
      store.Tidy();
      if Savable(w) {
        SavedEffects(store.rows, w, at);
      }
      var r := store.GetByWindow(w.id);
      if r.Found? {
        ok := SaveRow(r.id, w, at);
      } else {
        ok := r.NotFound?;
      }
    }

    /** Saves a live window's tabs in row `id`, which owns it. */
    method SaveRow(id: RowId, w: Window, at: Time) returns (ok: bool)
      requires Valid() && at == clock && Shown(driver.listings, w)
      requires WellFormed(store.rows) && id in store.rows && Holds(store.rows[id], w.id) && w.id != ""
      modifies store
      ensures Valid() && Grew()
      ensures store.rows == if ok && Savable(w) then WithSaved(old(store.rows), w, at) else old(store.rows)
      ensures Reliable() ==> ok
    {
      ok := true;
      var tabs, usable := MergeTabs(w, store.rows[id].tabs);
      OnlyHolder(store.rows, id, w.id);
      if usable {
        ok := store.SaveTabs(w.id, tabs, at, w);
      }
    }

    /** Saves the tabs the window shows now in the row that owns it. */
    method Snapshot(id: WindowId) returns (ok: bool, ghost listed: Option<seq<Window>>)
      requires Valid()
      modifies store, driver`known, driver`listings, this`clock
      ensures Valid() && Grew()
      ensures Resaved(old(store.rows), store.rows)
      ensures forall j :: j in old(store.rows) && !Holds(old(store.rows)[j], id) ==> store.rows[j] == old(store.rows)[j]
      ensures NonePending(old(store.rows), id) ==> NonePending(store.rows, id)
      ensures driver.listings == old(driver.listings) + if listed.Some? then [listed.value] else []
      ensures ok ==> listed.Some? && store.rows == Snapshotting(old(store.rows), FirstListed(listed.value, id), clock)
      ensures Reliable() ==> ok
    {
      var live := List();
      listed := live;
      if live.None? {
        return false, None;
      }
      var w := FindWindow(live.value, id);
      if w.None? {
        return true, listed;
      }
      var now := Now();
      SavingAddsNoPending(store.rows, w.value, now, id);
      ok := SaveTabs(w.value, now);
    }

    // --- timers -----------------------------------------------------------------

    method Schedule() returns (timer: nat)
      modifies this`nextTimer
      ensures timer == old(nextTimer) && nextTimer == old(nextTimer) + 1
    {
      timer, nextTimer := nextTimer, nextTimer + 1;
    }

    method ScheduleSnapshot(w: WindowId)
      modifies this`snapshots, this`nextTimer
      ensures snapshots == if w in old(snapshots) then old(snapshots) else old(snapshots)[w := old(nextTimer)]
    {
      if w in snapshots {
        return;
      }
      var timer := Schedule();
      snapshots := snapshots[w := timer];
    }

    /** The callback of a snapshot timer, whether or not it was stopped. */
    method SnapshotFires(w: WindowId, timer: nat) returns (ok: bool, ghost listed: Option<seq<Window>>)
      requires Valid()
      modifies store, driver`known, driver`listings, this`clock, this`snapshots
      ensures Valid() && Grew()
      ensures driver.listings == old(driver.listings) + if listed.Some? then [listed.value] else []
      ensures w !in old(snapshots) || old(snapshots)[w] != timer || !connected ==>
                store.rows == old(store.rows) && listed.None?
      ensures ok && w in old(snapshots) && old(snapshots)[w] == timer && connected ==>
                listed.Some? && store.rows == Snapshotting(old(store.rows), FirstListed(listed.value, w), clock)
      ensures Resaved(old(store.rows), store.rows)
      ensures snapshots ==
              if w in old(snapshots) && old(snapshots)[w] == timer then old(snapshots) - {w} else old(snapshots)
      ensures Reliable() ==> ok
    {
      ok, listed := true, None;
      if w in snapshots && snapshots[w] == timer {
        snapshots := snapshots - {w};
        if connected {
          ok, listed := Snapshot(w);
        }
      }
    }

    /** The callback of a removal timer, whether or not it was stopped: only
        the timer that is still waiting, in a live connection, forgets the row
        of its window. */
    method RemovalFires(w: WindowId, timer: nat) returns (ok: bool)
      requires Valid()
      modifies store, this`removals
      ensures Valid() && Grew()
      ensures var effective := w in old(removals) && old(removals)[w] == timer && connected;
              && (!ok || !effective ==> store.rows == old(store.rows))
              && (ok && effective ==> store.rows == WithoutWindow(old(store.rows), w))
      ensures removals == if w in old(removals) && old(removals)[w] == timer then old(removals) - {w} else old(removals)
      ensures Reliable() ==> ok
    {
      if w !in removals || removals[w] != timer {
        return true;
      }
      removals := removals - {w};
      if !connected {
        return true;
      }
      ReleaseEffects(store.rows, WithoutWindow(store.rows, w));
      ok := store.DeleteByWindow(w);
    }

    /** A closed window: its row is forgotten later, unless it was closed by
        the service itself. */
    method WindowRemoved(w: WindowId) returns (ok: bool)
      requires Valid()
      modifies store, this`deferredAdopt, this`daemonUnowned, this`reattachRejected, this`snapshots, this`closing
      modifies this`removals, this`nextTimer
      ensures Valid() && Grew() && store.rows == old(store.rows)
      ensures deferredAdopt == old(deferredAdopt) - {w} && daemonUnowned == old(daemonUnowned) - {w}
      ensures reattachRejected == old(reattachRejected) - {w} && snapshots == old(snapshots) - {w}
      ensures closing == old(closing) - {w}
      ensures w in old(closing) || w in old(removals) || w !in Owned(store.rows) ==> removals == old(removals)
      ensures ok && w !in old(closing) && w !in old(removals) && w in Owned(store.rows) ==>
                removals == old(removals)[w := old(nextTimer)]
      ensures Reliable() ==> ok
    {
      deferredAdopt := deferredAdopt - {w};
      daemonUnowned := daemonUnowned - {w};
      reattachRejected := reattachRejected - {w};
      snapshots := snapshots - {w};
      ok := true;
      if w in closing {
        closing := closing - {w};
      } else if w !in removals {
        ok := ScheduleRemoval(w);
      }
    }

    method ScheduleRemoval(w: WindowId) returns (ok: bool)
      requires Valid() && w !in removals
      modifies store, this`removals, this`nextTimer
      ensures Valid() && Grew() && store.rows == old(store.rows)
      ensures w !in Owned(store.rows) ==> removals == old(removals)
      ensures w in Owned(store.rows) ==> removals == if ok then old(removals)[w := old(nextTimer)] else old(removals)
      ensures Reliable() ==> ok
    {
      var r := store.GetByWindow(w);
      ok := !r.Failed?;
      if r.Found? {
        store.Note(Closed(w));
        var timer := Schedule();
        removals := removals[w := timer];
      }
    }

    /** Every closed window still waiting to be forgotten makes its row missing
        instead, tabs and all. */
    method FlushRemovals() returns (ok: bool)
      requires Valid()
      modifies store`rows, store`log, store`ledger, this`removals
      ensures Valid() && Grew() && removals == map[]
      ensures PartlyFlushed(old(store.rows), store.rows, old(removals).Keys, ok)
      ensures store.reliable ==> ok
    {
      store.Tidy();
      ok := true;
      ghost var closed: set<WindowId> := {};
      while removals != map[]
        invariant store.reliable ==> ok
        invariant Valid() && Grew()
        invariant forall w :: w in old(removals) <==> w in removals || w in closed
        invariant PartlyFlushed(old(store.rows), store.rows, closed, ok)
        decreases |removals.Keys|
      {
        var w :| w in removals;
        FlushOne(old(store.rows), store.rows, closed, w, ok);
        var marked := LoseWindow(w);
        closed := closed + {w};
        ok := ok && marked;
      }
      assert closed == old(removals).Keys;
    }

    method LoseWindow(w: WindowId) returns (ok: bool)
      requires Valid() && w in removals
      modifies store`rows, store`log, store`ledger, this`removals
      ensures Valid() && Grew() && removals == old(removals) - {w}
      ensures store.rows == if ok then MissingWindow(old(store.rows), w) else old(store.rows)
      ensures store.reliable ==> ok
    {
      removals := removals - {w};
      ReleaseEffects(store.rows, MissingWindow(store.rows, w));
      ok := store.MarkMissing(w);
    }

    // --- restoring after a browser restart ----------------------------------------

    method KeepRestoring(missing: int) returns (more: bool)
      modifies this`restoreUntil
      ensures more == (missing > 0) && restoreUntil == if more then old(restoreUntil) else 0
    {
      more := missing > 0;
      if !more {
        restoreUntil := 0;
      }
    }

    /** Whether missing rows may still be matched to windows that turn up: only
        before the deadline, and for sure while a row is missing. */
    method Restoring() returns (yes: bool)
      modifies this`clock, this`restoreUntil
      ensures old(clock) <= clock && restoreUntil in {0, old(restoreUntil)}
      ensures yes ==> old(clock) < old(restoreUntil) && restoreUntil == old(restoreUntil)
      ensures clock < old(restoreUntil) && MissingRows(store.rows) != {} ==> yes
      ensures !yes && old(restoreUntil) > clock ==> restoreUntil == 0
      ensures Reliable() && yes ==> MissingRows(store.rows) != {}
    {
      var now := Now();
      if now >= restoreUntil {
        return false;
      }
      var rows := store.ListMissing();
      if rows.None? {
        return true;
      }
      AnyListedMissing(store.rows, rows.value);
      yes := KeepRestoring(|rows.value|);
    }

    /** Reopens the missing row that the matching pairs with window `w`, if the
        deadline has not passed and the window is neither owned, rejected nor
        the daemon's own. */
    method ReattachLate(w: WindowId, live: seq<Window>) returns (ok: bool, done: bool)
      requires Valid() && w !in deferredAdopt && Latest(live)
      modifies store, this`clock, this`restoreUntil
      ensures Valid() && Grew() && restoreUntil in {0, old(restoreUntil)} && old(clock) <= clock
      ensures !done || w == "" ==> store.rows == old(store.rows)
      ensures done ==> old(clock) < old(restoreUntil) && Paired(old(store.rows), live, old(Unmatchable()), w)
      ensures done && w != "" ==> Restored(old(store.rows), store.rows, w)
      ensures done && w != "" ==> PairReopened(old(store.rows), store.rows, live, old(Unmatchable()), w, ok)
      ensures ok && clock < old(restoreUntil) && Paired(old(store.rows), live, old(Unmatchable()), w) ==> done
      ensures done ==> restoreUntil == Deadline(old(restoreUntil), |MissingRows(old(store.rows))| - 1)
      ensures Reliable() ==> ok
    {
      var row, missing;
      ok, row, missing := FindMatch(w, live);
      done := false;
      if row.Some? {
        ok, done := ReattachFound(row.value, w, live, missing);
      }
    }

    method ReattachFound(row: RowId, w: WindowId, live: seq<Window>, missing: int) returns (ok: bool, done: bool)
      requires Valid() && w !in deferredAdopt && w in ListedIds(live) && Latest(live)
      requires row in MissingRows(store.rows) && w !in Owned(store.rows)
      modifies store, this`clock, this`restoreUntil
      ensures Valid() && Grew()
      ensures !done || w == "" ==> store.rows == old(store.rows)
      ensures done && w != "" ==>
                Restored(old(store.rows), store.rows, w) && ReopenedAs(old(store.rows), store.rows, live, w, row, ok)
      ensures restoreUntil == if done then Deadline(old(restoreUntil), missing - 1) else old(restoreUntil)
      ensures ok ==> done
      ensures Reliable() ==> ok
    {
      ok, done := ReattachOne(row, w, live);
      if done {
        var _ := KeepRestoring(missing - 1);
      }
    }

    /** The row to reopen in `w`, while rows may still be matched, and how many
        rows are missing. */
    method FindMatch(w: WindowId, live: seq<Window>) returns (ok: bool, row: Option<RowId>, missing: int)
      requires Valid()
      modifies this`clock, this`restoreUntil
      ensures Valid() && restoreUntil in {0, old(restoreUntil)} && old(clock) <= clock
      ensures row.Some? ==>
                && ok && old(clock) < old(restoreUntil) && row.value in MissingRows(store.rows)
                && w in ListedIds(live) && w !in Unmatchable()
      ensures row.Some? ==> Pairs(store.rows, live, Unmatchable(), w, row.value)
      ensures row.Some? ==> missing == |MissingRows(store.rows)| && restoreUntil == old(restoreUntil)
      ensures ok && clock < old(restoreUntil) && Paired(store.rows, live, Unmatchable(), w) ==> row.Some?
      ensures Reliable() ==> ok
    {
      ok, row, missing := true, None, 0;
      var now := Now();
      if now < restoreUntil {
        PairedIsMatchable(store.rows, live, Unmatchable(), w);
        if w !in daemonUnowned && w !in reattachRejected {
          ok, row, missing := FindMissing(w, live);
        }
      }
    }

    method FindMissing(w: WindowId, live: seq<Window>) returns (ok: bool, row: Option<RowId>, missing: int)
      requires Valid()
      modifies this`restoreUntil
      ensures Valid() && restoreUntil in {0, old(restoreUntil)}
      ensures row.Some? ==> ok && row.value in MissingRows(store.rows) && w in ListedIds(live) && w !in Unmatchable()
      ensures row.Some? ==> Pairs(store.rows, live, Unmatchable(), w, row.value)
      ensures row.Some? ==> missing == |MissingRows(store.rows)| && restoreUntil == old(restoreUntil)
      ensures ok && Paired(store.rows, live, Unmatchable(), w) ==> row.Some?
      ensures Reliable() ==> ok
    {
      row, missing := None, 0;
      var rows := store.ListMissing();
      ok := rows.Some?;
      if ok {
        missing := |rows.value|;
        AnyListedMissing(store.rows, rows.value);
        PairedIsMatchable(store.rows, live, Unmatchable(), w);
        var more := KeepRestoring(missing);
        if more {
          ok, row := MatchUnowned(rows.value, live, w);
        }
      }
    }

    method MatchUnowned(rows: seq<Stored>, live: seq<Window>, w: WindowId) returns (ok: bool, row: Option<RowId>)
      requires Lists(store.rows, MissingRows(store.rows), rows)
      ensures row.Some? ==> ok && row.value in MissingRows(store.rows) && w in ListedIds(live) && w !in Unmatchable()
      ensures row.Some? ==> Pairs(store.rows, live, Unmatchable(), w, row.value)
      ensures ok && Paired(store.rows, live, Unmatchable(), w) ==> row.Some?
      ensures Reliable() ==> ok
    {
      row := None;
      var owned := store.OwnedWindows();
      ok := owned.Some?;
      if ok {
        row := MatchOne(rows, live, owned.value + daemonUnowned + reattachRejected, w);
      }
    }

    /** The missing row the matching pairs with `w`, if there is one. */
    method MatchOne(rows: seq<Stored>, live: seq<Window>, owned: set<WindowId>, w: WindowId)
      returns (row: Option<RowId>)
      requires Lists(store.rows, MissingRows(store.rows), rows)
      ensures row.Some? ==> Pairs(store.rows, live, owned, w, row.value)
      ensures row.Some? ==> row.value in MissingRows(store.rows) && w !in owned && w in ListedIds(live)
      ensures row.None? ==> !Paired(store.rows, live, owned, w)
    {
      var matches := MatchRows(rows, live, owned);
      PairsIff(store.rows, live, owned, matches, w);
      row := if w in matches then Some(matches[w]) else None;
    }

    /** The whole matching of the missing rows with the listed windows outside
        `owned`. */
    method MatchRows(rows: seq<Stored>, live: seq<Window>, owned: set<WindowId>) returns (matches: map<WindowId, RowId>)
      requires Lists(store.rows, MissingRows(store.rows), rows)
      ensures MatchesOf(store.rows, live, owned, matches)
      ensures Admissible(store.rows, live, owned, matches)
    {
      var saved := SavedRows(rows);
      SavedRowsList(store.rows, rows);
      ghost var cs;
      matches, cs := Reattach.MatchRestored(saved, live, owned, Reattach.REATTACH_THRESHOLD);
      MatchesAreAdmissible(store.rows, live, owned, matches);
    }

    method ReattachOne(row: RowId, w: WindowId, live: seq<Window>) returns (ok: bool, done: bool)
      requires Valid() && w !in deferredAdopt && w in ListedIds(live) && Latest(live)
      requires row in MissingRows(store.rows) && w !in Owned(store.rows)
      modifies store, this`clock
      ensures Valid() && Grew()
      ensures !done || w == "" ==> store.rows == old(store.rows)
      ensures done && w != "" ==>
                Restored(old(store.rows), store.rows, w) && ReopenedAs(old(store.rows), store.rows, live, w, row, ok)
      ensures ok ==> done
      ensures Reliable() ==> ok
    {
      var now := Now();
      done := ReopenRow(row, w, now);
      ok := done;
      if done {
        ghost var reopened := store.rows;
        var v := FindWindow(live, w);
        store.Tidy();
        ok := SaveTabs(v.value, now);
        if w != "" {
          RestoredThenSaved(old(store.rows), reopened, store.rows, row, live, w, now, ok);
        }
      }
    }

    /** Opens a row in a window that has no owner. */
    method ReopenRow(row: RowId, w: WindowId, at: Time) returns (ok: bool)
      requires Valid() && w !in deferredAdopt && w in driver.known && w !in Owned(store.rows)
      requires row in store.rows && !store.rows[row].state.Open? && at in {clock, store.rows[row].focusedAt}
      modifies store
      ensures Valid() && Grew()
      ensures store.rows == if ok && w != "" then WithReopened(old(store.rows), row, w, at) else old(store.rows)
      ensures ok && w != "" ==>
                Restored(old(store.rows), store.rows, w) && OwnedBy(store.rows, w, old(store.rows)[row].session)
      ensures Reliable() ==> ok
    {
      if w != "" {
        ReopenedEffects(store.rows, row, w, at);
      }
      store.InThePast();
      ok := store.Reopen(row, w, at);
    }

    // --- adopting new windows -----------------------------------------------------

    /** The session of the window that had the focus before `w`, if any. */
    method ParentSession(w: WindowId) returns (parent: Option<SessionId>)
      requires Valid()
      ensures parent.Some? ==> IsParent(store.rows, FocusBefore(w), parent.value)
      ensures Reliable() ==> parent.Some?
    {
      var r := store.GetByWindow(FocusBefore(w));
      parent := match r
        case NotFound => Some(0)
        case Failed => None
        case Found(_, row) => Some(row.session);
    }

    function FocusBefore(w: WindowId): WindowId
      reads this
    {
      if lastFocused == w then prevFocused else lastFocused
    }

    /** Gives a window without owner to the session, unless there is none. */
    method AdoptInto(w: WindowId, session: SessionId, live: seq<Window>) returns (ok: bool)
      requires Valid() && w != "" && w in driver.known && w !in Owned(store.rows) && w !in deferredAdopt && Latest(live)
      modifies store, this`clock
      ensures Valid() && Grew()
      ensures Gains(old(store.rows), store.rows, w)
      ensures session == 0 ==> store.rows == old(store.rows)
      ensures ok ==> GoesTo(old(store.rows), store.rows, live, w, session)
      ensures Reliable() ==> ok
    {
      if session == 0 {
        return true;
      }
      var now := Now();
      var row := Row(session, Open, w, now, [], 0);
      ghost var id := store.nextId;
      ok := AddOpenRow(row);
      if ok {
        ghost var added := store.rows;
        ok := SaveListed(w, live, now);
        if ok {
          AddedThenSaved(old(store.rows), added, store.rows, id, row, live, now);
        }
      }
    }

    /** Saves the window's tabs as listed, if it is listed. */
    method SaveListed(w: WindowId, live: seq<Window>, at: Time) returns (ok: bool)
      requires Valid() && at == clock && Latest(live)
      modifies store
      ensures Valid() && Grew() && WellFormed(old(store.rows))
      ensures store.rows == if ok then Snapshotting(old(store.rows), FirstListed(live, w), at) else old(store.rows)
      ensures Reliable() ==> ok
    {
      store.Tidy();
      ok := true;
      var v := FindWindow(live, w);
      if v.Some? {
        ok := SaveTabs(v.value, at);
      }
    }

    method AddOpenRow(row: Row) returns (ok: bool)
      requires Valid() && row.snapshotAt <= row.focusedAt == clock
      requires row.state.Open? && row.window != "" && row.window in driver.known
      requires row.window !in Owned(store.rows) && row.window !in deferredAdopt
      modifies store
      ensures Valid() && Grew()
      ensures store.rows == if ok then old(store.rows)[old(store.nextId) := row] else old(store.rows)
      ensures old(store.nextId) !in old(store.rows)
      ensures Gains(old(store.rows), store.rows, row.window)
      ensures ok ==> OwnedBy(store.rows, row.window, row.session)
      ensures Reliable() ==> ok
    {
      store.Tidy();
      AddedEffects(store.rows, store.nextId, row);
      ok := store.Add(row);
    }

    /** A window announced as created: unless it is the daemon's own or already
        owned it is adopted as listed, with the session in focus as parent. */
    method Adopt(w: WindowId) returns (ok: bool, ghost restoring: bool)
      requires Valid() && w != "" && w in driver.announced && w !in deferredAdopt
      modifies store, driver`known, driver`listings, this`clock, this`restoreUntil, this`unowned, this`deferredAdopt
      ensures Valid() && Grew() && unowned == old(unowned) - {w}
      ensures Gains(old(store.rows), store.rows, w) && deferredAdopt - {w} == old(deferredAdopt)
      ensures w in old(unowned) || w in Owned(old(store.rows)) ==>
                && store.rows == old(store.rows) && deferredAdopt == old(deferredAdopt)
                && driver.listings == old(driver.listings)
      ensures w in deferredAdopt ==>
                store.rows == old(store.rows) && IsParent(store.rows, FocusBefore(w), deferredAdopt[w])
      ensures restoring ==> old(clock) < old(restoreUntil)
      ensures ok && w !in old(unowned) && w !in Owned(old(store.rows)) ==>
                && (clock < old(restoreUntil) && MissingRows(old(store.rows)) != {} ==> restoring)
                && |driver.listings| == |old(driver.listings)| + 1
                && AdoptedFrom(old(store.rows), store.rows, driver.listings[|old(driver.listings)|], old(Unmatchable()),
                               w, FocusBefore(w), w in deferredAdopt, restoring, clock < old(restoreUntil))
      ensures Reliable() ==> ok
    {
      restoring := false;
      if w in unowned {
        unowned := unowned - {w};
        return true, false;
      }
      var r := store.GetByWindow(w);
      if r.NotFound? {
        ok, restoring := AdoptUnowned(w);
      } else {
        ok := r.Found?;
      }
    }

    method AdoptUnowned(w: WindowId) returns (ok: bool, ghost restoring: bool)
      requires Valid() && w != "" && w in driver.announced && w !in deferredAdopt && w !in Owned(store.rows)
      modifies store, driver`known, driver`listings, this`clock, this`restoreUntil, this`deferredAdopt
      ensures Valid() && Grew()
      ensures Gains(old(store.rows), store.rows, w) && deferredAdopt - {w} == old(deferredAdopt)
      ensures w in deferredAdopt ==>
                store.rows == old(store.rows) && IsParent(store.rows, FocusBefore(w), deferredAdopt[w])
      ensures restoring ==> old(clock) < old(restoreUntil)
      ensures ok ==>
                && |driver.listings| == |old(driver.listings)| + 1
                && (clock < old(restoreUntil) && MissingRows(old(store.rows)) != {} ==> restoring)
      ensures ok ==>
                AdoptedFrom(old(store.rows), store.rows, driver.listings[|old(driver.listings)|], old(Unmatchable()), w,
                            FocusBefore(w), w in deferredAdopt, restoring, clock < old(restoreUntil))
      ensures Reliable() ==> ok
    {
      ok, restoring := false, false;
      var parent := ParentSession(w);
      if parent.Some? {
        ok, restoring := AdoptFor(w, parent.value);
      }
    }

    method AdoptFor(w: WindowId, parent: SessionId) returns (ok: bool, ghost restoring: bool)
      requires Valid() && w != "" && w in driver.announced && w !in deferredAdopt && w !in Owned(store.rows)
      modifies store, driver`known, driver`listings, this`clock, this`restoreUntil, this`deferredAdopt
      ensures Valid() && Grew()
      ensures Gains(old(store.rows), store.rows, w) && deferredAdopt - {w} == old(deferredAdopt)
      ensures w in deferredAdopt ==> store.rows == old(store.rows) && deferredAdopt[w] == parent
      ensures restoring ==> old(clock) < old(restoreUntil)
      ensures ok ==> |driver.listings| == |old(driver.listings)| + 1
      ensures ok && clock < old(restoreUntil) && MissingRows(old(store.rows)) != {} ==> restoring
      ensures ok ==>
                AdoptedAs(old(store.rows), store.rows, driver.listings[|old(driver.listings)|], old(Unmatchable()), w,
                          parent, w in deferredAdopt, restoring, clock < old(restoreUntil))
      ensures Reliable() ==> ok
    {
      ok, restoring := false, false;
      var live := List();
      if live.Some? {
        ok, restoring := AdoptListed(w, parent, live.value);
      }
    }

    method AdoptListed(w: WindowId, parent: SessionId, live: seq<Window>) returns (ok: bool, ghost restoring: bool)
      requires Valid() && w != "" && w in driver.announced && w !in deferredAdopt && w !in Owned(store.rows)
      requires Latest(live)
      modifies store, this`clock, this`restoreUntil, this`deferredAdopt
      ensures Valid() && Grew() && deferredAdopt - {w} == old(deferredAdopt)
      ensures Gains(old(store.rows), store.rows, w)
      ensures w in deferredAdopt ==> store.rows == old(store.rows) && deferredAdopt[w] == parent
      ensures restoring ==> old(clock) < old(restoreUntil)
      ensures clock < old(restoreUntil) && MissingRows(old(store.rows)) != {} ==> restoring
      ensures ok ==>
                AdoptedAs(old(store.rows), store.rows, live, old(Unmatchable()), w, parent, w in deferredAdopt,
                          restoring, clock < old(restoreUntil))
      ensures Reliable() ==> ok
    {
      var wait := Restoring();
      restoring := wait;
      if wait {
        ok := DeferOrMatch(w, parent, live);
      } else {
        ok := AdoptInto(w, parent, live);
      }
    }

    /** A window to adopt while rows may still be matched: it waits while it
        shows nothing to compare. */
    method DeferOrMatch(w: WindowId, parent: SessionId, live: seq<Window>) returns (ok: bool)
      requires Valid() && w != "" && w in driver.announced && w !in deferredAdopt && w !in Owned(store.rows)
      requires Latest(live)
      requires restoreWindow > 0
      modifies store, this`clock, this`restoreUntil, this`deferredAdopt
      ensures Valid() && Grew() && deferredAdopt - {w} == old(deferredAdopt)
      ensures Gains(old(store.rows), store.rows, w)
      ensures w in deferredAdopt <==> !ComparableIn(live, w)
      ensures w in deferredAdopt ==> store.rows == old(store.rows) && deferredAdopt[w] == parent
      ensures ok && w !in deferredAdopt ==>
                MatchedLate(old(store.rows), store.rows, live, old(Unmatchable()), w, clock < old(restoreUntil))
      ensures Reliable() ==> ok
    {
      var comparable := Comparable(live, w);
      ok := true;
      if comparable {
        ok := MatchNow(w, live);
      } else {
        Defer(w, parent);
      }
    }

    method MatchNow(w: WindowId, live: seq<Window>) returns (ok: bool)
      requires Valid() && w != "" && w !in deferredAdopt && Latest(live)
      modifies store, this`clock, this`restoreUntil
      ensures Valid() && Grew()
      ensures Gains(old(store.rows), store.rows, w)
      ensures ok ==>
                MatchedLate(old(store.rows), store.rows, live, old(Unmatchable()), w, clock < old(restoreUntil))
      ensures Reliable() ==> ok
    {
      var done;
      ok, done := ReattachLate(w, live);
      LateOutcome(old(store.rows), store.rows, live, old(Unmatchable()), w, clock < old(restoreUntil), ok, done);
    }

    method Defer(w: WindowId, parent: SessionId)
      requires Valid() && w != "" && w in driver.announced && w !in Owned(store.rows) && restoreWindow > 0
      modifies this`deferredAdopt
      ensures Valid() && Grew() && deferredAdopt == old(deferredAdopt)[w := parent]
      ensures Gains(store.rows, store.rows, w) && deferredAdopt - {w} == old(deferredAdopt) - {w}
    {
      deferredAdopt := deferredAdopt[w := parent];
    }

    /** Whether the listed window shows a page that can be compared. */
    method Comparable(live: seq<Window>, w: WindowId) returns (yes: bool)
      ensures yes <==> ComparableIn(live, w)
    {
      var v := FindWindow(live, w);
      if v.None? {
        return false;
      }
      var keys := Reattach.ComputeUrlSet(Reattach.WindowUrls(v.value));
      yes := keys != {};
    }

    /** A deferred window once more: adopted or matched unless it still shows
        nothing to compare. */
    method AdoptDeferred(w: WindowId, live: seq<Window>) returns (ok: bool, ghost restoring: bool)
      requires Valid() && w in deferredAdopt && Latest(live)
      modifies store, this`clock, this`restoreUntil, this`deferredAdopt
      ensures Valid() && Grew() && deferredAdopt - {w} == old(deferredAdopt) - {w}
      ensures Gains(old(store.rows), store.rows, w)
      ensures w in deferredAdopt ==> store.rows == old(store.rows) && deferredAdopt == old(deferredAdopt)
      ensures restoring ==> old(clock) < old(restoreUntil)
      ensures clock < old(restoreUntil) && MissingRows(old(store.rows)) != {} ==> restoring
      ensures ok ==> SettledAs(old(store.rows), store.rows, live, old(Unmatchable()), w, old(deferredAdopt)[w],
                               w in deferredAdopt, restoring, clock < old(restoreUntil))
      ensures Reliable() ==> ok
    {
      var parent := deferredAdopt[w];
      var wait := Restoring();
      restoring := wait;
      if wait {
        var comparable := Comparable(live, w);
        if !comparable {
          return true, wait;
        }
      }
      ok := SettleDeferred(w, parent, live, wait);
    }

    method SettleDeferred(w: WindowId, parent: SessionId, live: seq<Window>, wait: bool) returns (ok: bool)
      requires Valid() && w in deferredAdopt && Latest(live)
      modifies store, this`clock, this`restoreUntil, this`deferredAdopt
      ensures Valid() && Grew() && deferredAdopt == old(deferredAdopt) - {w}
      ensures Gains(old(store.rows), store.rows, w)
      ensures ok && !wait ==> GoesTo(old(store.rows), store.rows, live, w, parent)
      ensures ok && wait ==>
                || MatchReopened(old(store.rows), store.rows, live, old(Unmatchable()), w)
                || GoesTo(old(store.rows), store.rows, live, w, parent)
      ensures ok && wait && clock < old(restoreUntil) && Paired(old(store.rows), live, old(Unmatchable()), w) ==>
                MatchReopened(old(store.rows), store.rows, live, old(Unmatchable()), w)
      ensures Reliable() ==> ok
    {
      deferredAdopt := deferredAdopt - {w};
      var done := false;
      ok := true;
      if wait {
        ok, done := ReattachLate(w, live);
      }
      if ok && !done {
        ok := AdoptInto(w, parent, live);
      }
    }

    /** Settles every deferred window that is still listed; the others are
        dropped. */
    method ResolveDeferred(live: seq<Window>) returns (ok: bool)
      requires Valid() && Latest(live)
      modifies store, this`clock, this`restoreUntil, this`deferredAdopt
      ensures Valid() && Grew()
      ensures GainsFrom(old(store.rows), store.rows, old(deferredAdopt).Keys * ListedIds(live))
      ensures old(deferredAdopt) == map[] ==> store.rows == old(store.rows) && restoreUntil == old(restoreUntil)
      ensures Resolved(store.rows, live, old(deferredAdopt), deferredAdopt, {}, ok)
      ensures Reliable() ==> ok
    {
      ok := true;
      var rest := deferredAdopt.Keys;
      while rest != {}
        invariant Reliable() ==> ok
        invariant Valid() && Grew() && rest <= old(deferredAdopt).Keys
        invariant GainsFrom(old(store.rows), store.rows, old(deferredAdopt).Keys * ListedIds(live))
        invariant old(deferredAdopt) == map[] ==> store.rows == old(store.rows) && restoreUntil == old(restoreUntil)
        invariant Resolved(store.rows, live, old(deferredAdopt), deferredAdopt, rest, ok)
        decreases |rest|
      {
        var w :| w in rest;
        ghost var before, waiting := store.rows, deferredAdopt;
        var settled := ResolveOne(w, live);
        GainsListed(old(store.rows), before, store.rows, w, old(deferredAdopt).Keys, ListedIds(live));
        ResolvedOne(before, store.rows, live, old(deferredAdopt), waiting, deferredAdopt, rest, w, ok, settled);
        rest := rest - {w};
        ok := ok && settled;
      }
    }

    method ResolveOne(w: WindowId, live: seq<Window>) returns (ok: bool)
      requires Valid() && w in deferredAdopt && Latest(live)
      modifies store, this`clock, this`restoreUntil, this`deferredAdopt
      ensures Valid() && Grew() && deferredAdopt - {w} == old(deferredAdopt) - {w}
      ensures Gains(old(store.rows), store.rows, w) && (w !in ListedIds(live) ==> store.rows == old(store.rows))
      ensures w in deferredAdopt ==> deferredAdopt[w] == old(deferredAdopt)[w]
      ensures ResolvedAt(store.rows, live, w, old(deferredAdopt)[w], w in deferredAdopt, ok)
      ensures Reliable() ==> ok
    {
      var v := FindWindow(live, w);
      if v.None? {
        deferredAdopt := deferredAdopt - {w};
        ok := true;
      } else {
        ghost var restoring;
        ok, restoring := AdoptDeferred(w, live);
      }
    }

    // --- tabs and focus -------------------------------------------------------------

    method OpenTab(w: WindowId, url: Url) returns (tab: Option<Tab>)
      requires Valid()
      modifies store, driver`openings
      ensures Valid() && Grew() && store.rows == old(store.rows)
      ensures store.ledger.openings == old(store.ledger.openings) + if tab.Some? then [(w, url)] else []
      ensures Reliable() ==> tab.Some?
    {
      tab := driver.OpenTab(w, url);
      if tab.Some? {
        store.Note(TabOpened(w, url));
      }
    }

    /** A window's tabs changed: a deferred window is settled, an owned one
        saved soon, and another may be matched late. */
    method TabsChanged(w: WindowId) returns (ok: bool, ghost restoring: bool)
      requires Valid()
      modifies store, driver`known, driver`listings, this`clock, this`restoreUntil, this`deferredAdopt, this`snapshots
      modifies this`nextTimer
      ensures Valid() && Grew()
      ensures Gains(old(store.rows), store.rows, w) && deferredAdopt - {w} == old(deferredAdopt) - {w}
      ensures w in Owned(old(store.rows)) ==> store.rows == old(store.rows) && (ok ==> w in snapshots)
      ensures w in unowned && w !in old(deferredAdopt) ==> store.rows == old(store.rows)
      ensures snapshots == old(snapshots) || snapshots == old(snapshots)[w := old(nextTimer)]
      ensures restoring ==> old(clock) < old(restoreUntil)
      ensures && clock < old(restoreUntil) && MissingRows(old(store.rows)) != {} && ok && w !in unowned
              && w !in Owned(old(store.rows)) ==>
                restoring
      ensures ok && w in old(deferredAdopt) ==> |driver.listings| == |old(driver.listings)| + 1
      ensures ok && w in old(deferredAdopt) ==>
                SettledAs(old(store.rows), store.rows, driver.listings[|old(driver.listings)|], old(Unmatchable()), w,
                          old(deferredAdopt)[w], w in deferredAdopt, restoring, clock < old(restoreUntil))
      ensures ok && w !in old(deferredAdopt) && w !in unowned && w !in Owned(old(store.rows)) && w != "" ==>
                if !restoring then store.rows == old(store.rows)
                else |driver.listings| == |old(driver.listings)| + 1 &&
                     MatchedLate(old(store.rows), store.rows, driver.listings[|old(driver.listings)|],
                                 old(Unmatchable()), w, clock < old(restoreUntil))
      ensures Reliable() ==> ok
    {
      restoring := false;
      if w in deferredAdopt {
        var live := List();
        if live.Some? {
          ok, restoring := AdoptDeferred(w, live.value);
        } else {
          ok := false;
        }
        return;
      }
      var r := store.GetByWindow(w);
      if r.NotFound? {
        ok, restoring := UnownedTabsChanged(w);
      } else {
        ok := r.Found?;
        if ok {
          ScheduleSnapshot(w);
        }
      }
    }

    method UnownedTabsChanged(w: WindowId) returns (ok: bool, ghost restoring: bool)
      requires Valid() && w !in deferredAdopt && w !in Owned(store.rows)
      modifies store, driver`known, driver`listings, this`clock, this`restoreUntil
      ensures Valid() && Grew()
      ensures Gains(old(store.rows), store.rows, w)
      ensures w in unowned ==> store.rows == old(store.rows) && !restoring
      ensures restoring ==> old(clock) < old(restoreUntil)
      ensures clock < old(restoreUntil) && MissingRows(old(store.rows)) != {} && w !in unowned ==> restoring
      ensures !restoring ==> store.rows == old(store.rows)
      ensures ok && restoring && w != "" ==> |driver.listings| == |old(driver.listings)| + 1
      ensures ok && restoring && w != "" ==>
                MatchedLate(old(store.rows), store.rows, driver.listings[|old(driver.listings)|], old(Unmatchable()), w,
                            clock < old(restoreUntil))
      ensures Reliable() ==> ok
    {
      restoring := false;
      ok := true;
      if w !in unowned {
        var wait := Restoring();
        restoring := wait;
        if wait {
          ok := ReattachListed(w);
        }
      }
    }

    /** Lists the windows and reopens the row paired with this one, if there is
        one. */
    method ReattachListed(w: WindowId) returns (ok: bool)
      requires Valid() && w !in deferredAdopt && w !in Owned(store.rows)
      modifies store, driver`known, driver`listings, this`clock, this`restoreUntil
      ensures Valid() && Grew()
      ensures Gains(old(store.rows), store.rows, w)
      ensures ok && w != "" ==> |driver.listings| == |old(driver.listings)| + 1
      ensures ok && w != "" ==>
                MatchedLate(old(store.rows), store.rows, driver.listings[|old(driver.listings)|], old(Unmatchable()), w,
                            clock < old(restoreUntil))
      ensures Reliable() ==> ok
    {
      var live := List();
      ok := live.Some?;
      if ok {
        var matched;
        ok, matched := ReattachLate(w, live.value);
      }
    }

    /** The focus moved to `w`: its row, if it has one, records the time, and its
        pending tabs are opened. */
    method FocusChanged(w: WindowId) returns (ok: bool)
      requires Valid()
      modifies store, driver`known, driver`listings, driver`openings, this`clock, this`lastFocused, this`prevFocused
      ensures Valid() && Grew()
      ensures Refocused(old(store.rows), store.rows, w)
      ensures w == "" ==> store.rows == old(store.rows)
      ensures ok ==> FocusedBetween(store.rows, w, old(clock), clock)
      ensures w == "" || w == old(lastFocused) ==> lastFocused == old(lastFocused) && prevFocused == old(prevFocused)
      ensures w != "" && w != old(lastFocused) ==> lastFocused == w && prevFocused == old(lastFocused)
      ensures ok && w != "" ==> NonePending(store.rows, w)
      ensures ok && w != "" ==>
                && old(driver.openings) <= driver.openings
                && PendingOpened(old(store.rows), w, driver.openings[|old(driver.openings)|..])
      ensures Reliable() ==> ok
    {
      ok := true;
      store.Tidy();
      if w != "" {
        Focus(w);
        ok := TouchAndLoad(w);
      }
    }

    method Focus(w: WindowId)
      requires Valid()
      modifies this`lastFocused, this`prevFocused
      ensures Valid()
      ensures w == old(lastFocused) ==> lastFocused == old(lastFocused) && prevFocused == old(prevFocused)
      ensures w != old(lastFocused) ==> lastFocused == w && prevFocused == old(lastFocused)
    {
      if w != lastFocused {
        lastFocused, prevFocused := w, lastFocused;
      }
    }

    method TouchAndLoad(w: WindowId) returns (ok: bool)
      requires Valid() && w != ""
      modifies store, driver`known, driver`listings, driver`openings, this`clock
      ensures Valid() && Grew()
      ensures Refocused(old(store.rows), store.rows, w)
      ensures ok ==> FocusedBetween(store.rows, w, old(clock), clock)
      ensures ok ==> NonePending(store.rows, w)
      ensures ok ==>
                && old(driver.openings) <= driver.openings
                && PendingOpened(old(store.rows), w, driver.openings[|old(driver.openings)|..])
      ensures Reliable() ==> ok
    {
      var touched := Touch(w);
      ghost var before := store.rows;
      FocusKeepsTabs(old(store.rows), before, w);
      var loaded := LoadPending(w);
      FocusedThenSaved(old(store.rows), before, store.rows, w, old(clock), clock);
      ok := touched && loaded;
    }

    method Touch(w: WindowId) returns (ok: bool)
      requires Valid() && w != ""
      modifies store, this`clock
      ensures Valid() && Grew()
      ensures Refocused(old(store.rows), store.rows, w)
      ensures forall id :: id in old(store.rows) ==> store.rows[id].tabs == old(store.rows)[id].tabs
      ensures ok ==> FocusedBetween(store.rows, w, old(clock), clock)
      ensures Reliable() ==> ok
    {
      var now := Now();
      FocusEffects(store.rows, w, now);
      ok := store.TouchFocused(w, now);
    }

    /** Opens the pending tabs of the row that owns `w`; those that open are no
        longer pending. */
    method LoadPending(w: WindowId) returns (ok: bool)
      requires Valid()
      modifies store, driver`known, driver`listings, driver`openings, this`clock
      ensures Valid() && Grew()
      ensures Resaved(old(store.rows), store.rows)
      ensures forall id :: id in old(store.rows) && !Holds(old(store.rows)[id], w) ==>
                store.rows[id] == old(store.rows)[id]
      ensures old(driver.openings) <= driver.openings
      ensures ok ==>
                && NonePending(store.rows, w)
                && PendingOpened(old(store.rows), w, driver.openings[|old(driver.openings)|..])
      ensures Reliable() ==> ok
    {
      store.Tidy();
      var r := store.GetByWindow(w);
      if !r.Found? {
        return r.NotFound?;
      }
      var pending := PendingTabs(r.row.tabs);
      if |pending| == 0 {
        NothingPending(r.row.tabs);
        NothingToOpen(w, r.row.tabs);
        return true;
      }
      ok := LoadRow(r.id, w);
    }

    method LoadRow(id: RowId, w: WindowId) returns (ok: bool)
      requires Valid() && id in store.rows && Holds(store.rows[id], w)
      modifies store, driver`known, driver`listings, driver`openings, this`clock
      ensures Valid() && Grew()
      ensures Resaved(old(store.rows), store.rows)
      ensures forall j :: j in old(store.rows) && !Holds(old(store.rows)[j], w) ==> store.rows[j] == old(store.rows)[j]
      ensures old(driver.openings) <= driver.openings
      ensures ok ==> NonePending(store.rows, w)
      ensures ok ==>
                driver.openings ==
                old(driver.openings) + Openings(w, old(store.rows)[id].tabs, PendingMask(old(store.rows)[id].tabs))
      ensures Reliable() ==> ok
    {
      var outcome;
      ghost var loaded;
      outcome, loaded := OpenPending(id, w);
      ok := false;
      if outcome.stored {
        var saved := SnapshotAgain(w, old(store.rows));
        ok := outcome.all && saved;
      }
    }

    /** Saves the tabs once more after others were saved. */
    method SnapshotAgain(w: WindowId, ghost was: Table) returns (ok: bool)
      requires Valid() && Resaved(was, store.rows)
      requires forall j :: j in was && !Holds(was[j], w) ==> store.rows[j] == was[j]
      modifies store, driver`known, driver`listings, this`clock
      ensures Valid() && Grew()
      ensures Resaved(was, store.rows)
      ensures forall j :: j in was && !Holds(was[j], w) ==> store.rows[j] == was[j]
      ensures NonePending(old(store.rows), w) ==> NonePending(store.rows, w)
      ensures Reliable() ==> ok
    {
      ghost var before, listed := store.rows, None;
      ok, listed := Snapshot(w);
      ResavedTwice(was, before, store.rows);
    }

    /** Opens the pending tabs of one row, one by one, and stores which are
        left: a tab stops being pending exactly when it was opened. */
    method OpenPending(id: RowId, w: WindowId) returns (outcome: Opened, ghost loaded: seq<bool>)
      requires Valid() && id in store.rows && Holds(store.rows[id], w)
      modifies store, driver`openings
      ensures Valid() && Grew()
      ensures MarksPending(old(store.rows)[id].tabs, loaded, outcome.all)
      ensures driver.openings == old(driver.openings) + Openings(w, old(store.rows)[id].tabs, loaded)
      ensures store.rows ==
              if outcome.stored then WithTabs(old(store.rows), id, Released(old(store.rows)[id].tabs, loaded))
              else old(store.rows)
      ensures Resaved(old(store.rows), store.rows)
      ensures outcome.stored && outcome.all ==> NonePending(store.rows, w)
      ensures Reliable() ==> outcome == Opened(true, true)
    {
      ghost var since := |store.ledger.openings|;
      var tabs, all;
      tabs, loaded, all := OpenEach(w, store.rows[id].tabs);
      NoneLeft(store.rows[id].tabs, loaded);
      var stored := StoreLoaded(id, w, tabs, loaded, since);
      outcome := Opened(stored, all);
    }

    method OpenEach(w: WindowId, was: seq<SavedTab>) returns (tabs: seq<SavedTab>, ghost loaded: seq<bool>, all: bool)
      requires Valid()
      modifies store, driver`openings
      ensures Valid() && Grew() && store.rows == old(store.rows)
      ensures |loaded| == |was| && tabs == Released(was, loaded) && MarksPending(was, loaded, all)
      ensures driver.openings == old(driver.openings) + Openings(w, was, loaded)
      ensures Reliable() ==> all
    {
      ghost var since := |driver.openings|;
      tabs, loaded, all := [], [], true;
      for i := 0 to |was|
        invariant Valid() && Grew() && store.rows == old(store.rows)
        invariant old(driver.openings) <= driver.openings
        invariant Loading(w, was, i, loaded, tabs, driver.openings[since..], all)
        invariant Reliable() ==> all
      {
        ghost var before := driver.openings[since..];
        var opens := OpenIfPending(w, was[i]);
        assert driver.openings[since..] == before + if opens then [(w, was[i].url)] else [];
        LoadingOne(w, was, i, loaded, tabs, before, all, opens);
        loaded := loaded + [opens];
        tabs := tabs + [if opens then was[i].(pending := false) else was[i]];
        all := all && (opens || !was[i].pending);
      }
      assert was[..|was|] == was;
    }

    method OpenIfPending(w: WindowId, t: SavedTab) returns (opens: bool)
      requires Valid()
      modifies store, driver`openings
      ensures Valid() && Grew() && store.rows == old(store.rows)
      ensures store.ledger.openings == old(store.ledger.openings) + if opens then [(w, t.url)] else []
      ensures opens ==> t.pending
      ensures Reliable() && t.pending ==> opens
    {
      opens := false;
      if t.pending {
        var tab := OpenTab(w, t.url);
        opens := tab.Some?;
      }
    }

    method StoreLoaded(id: RowId, w: WindowId, tabs: seq<SavedTab>, ghost loaded: seq<bool>, ghost since: nat)
      returns (ok: bool)
      requires Valid() && id in store.rows && Holds(store.rows[id], w)
      requires |loaded| == |store.rows[id].tabs| && tabs == Released(store.rows[id].tabs, loaded)
      requires since <= |store.ledger.openings|
      requires store.ledger.openings[since..] == Openings(w, store.rows[id].tabs, loaded)
      modifies store
      ensures Valid() && Grew()
      ensures store.rows == if ok then WithTabs(old(store.rows), id, tabs) else old(store.rows)
      ensures Resaved(old(store.rows), store.rows)
      ensures ok && !AnyPending(tabs) ==> NonePending(store.rows, w)
      ensures Reliable() ==> ok
    {
      store.Tidy();
      ReleasedLength(store.rows[id].tabs, loaded);
      ReplacedTabs(store.rows, id, tabs);
      ok := store.SetTabs(id, tabs, Loaded(id, loaded, since));
    }

    // --- closing, archiving, deleting -------------------------------------------------

    method CloseWindow(w: WindowId) returns (ok: bool)
      modifies this`snapshots, this`closing, driver`commands
      ensures snapshots == old(snapshots) - {w}
      ensures closing == if ok then old(closing) + {w} else old(closing) - {w}
      ensures driver.commands == old(driver.commands) + [Close(w)]
      ensures Reliable() ==> ok
    {
      snapshots := snapshots - {w};
      closing := closing + {w};
      ok := driver.Send(Close(w));
      if !ok {
        closing := closing - {w};
      }
    }

    method Snapshotted(id: RowId, tabs: seq<SavedTab>, at: Time, ghost from: Option<Window>) returns (ok: bool)
      requires Valid() && id in store.rows && tabs == TabsFrom(store.rows, id, from)
      requires if from.Some? then at == clock else at == store.rows[id].snapshotAt
      requires from.Some? ==>
                Savable(from.value) && Shown(driver.listings, from.value) && BelongsTo(store.ledger, from.value.id, id)
      modifies store
      ensures Valid() && Grew()
      ensures store.rows == if ok then WithSnapshot(old(store.rows), id, tabs, at) else old(store.rows)
      ensures ReworkedAt(old(store.rows), store.rows, id)
      ensures ok ==> forall w :: Holds(old(store.rows)[id], w) ==> w !in Owned(store.rows)
      ensures Reliable() ==> ok
    {
      store.Tidy();
      SnapshotEffects(store.rows, id, tabs, at, from);
      store.InThePast();
      ok := store.MarkSnapshotted(id, tabs, at, from);
    }

    /** What archiving and deleting begin with: the session is no longer
        attached, no window waits to be adopted into it, and, while connected,
        the live windows are listed. */
    method ReleaseSession(session: SessionId) returns (ok: bool, rows: seq<Stored>, live: Option<seq<Window>>)
      requires Valid()
      modifies store`log, store`ledger, driver`known, driver`listings, this`attached, this`deferredAdopt
      ensures Valid() && Grew()
      ensures attached == if old(attached) == session then 0 else old(attached)
      ensures deferredAdopt ==
              map w | w in old(deferredAdopt) && old(deferredAdopt)[w] != session :: old(deferredAdopt)[w]
      ensures driver.listings == old(driver.listings) + if live.Some? then [live.value] else []
      ensures ok ==> Lists(store.rows, OpenOf(store.rows, session), rows) && live.Some? == connected
      ensures live.Some? ==> Latest(live.value) && ListedIds(live.value) <= driver.known
      ensures Reliable() ==> ok
    {
      Detach(session);
      var listed := store.ListOpenBySession(session);
      rows, live, ok := [], None, listed.Some?;
      if ok {
        rows := listed.value;
        if connected {
          live := List();
          ok := live.Some?;
        }
      }
    }

    /** The session is not attached any more and nothing waits for it. */
    method Detach(session: SessionId)
      requires Valid()
      modifies this`attached, this`deferredAdopt
      ensures Valid()
      ensures attached == if old(attached) == session then 0 else old(attached)
      ensures deferredAdopt ==
              map w | w in old(deferredAdopt) && old(deferredAdopt)[w] != session :: old(deferredAdopt)[w]
    {
      if attached == session {
        attached := 0;
      }
      deferredAdopt := map w | w in deferredAdopt && deferredAdopt[w] != session :: deferredAdopt[w];
    }

    /** Closes every window of the session and keeps its rows for a later
        restore. While the browser is away the windows are closed when it
        returns. */
    method Archive(session: SessionId) returns (ok: bool, ghost live: Option<seq<Window>>)
      requires Valid()
      modifies store, driver`known, driver`listings, driver`commands, this`clock, this`attached, this`deferredAdopt
      modifies this`pendingClose, this`snapshots, this`closing
      ensures Valid() && Grew()
      ensures Keeps(old(store.rows), store.rows) && Owned(store.rows) <= Owned(old(store.rows))
      ensures OthersSame(old(store.rows), store.rows, session)
      ensures driver.listings == old(driver.listings) + if live.Some? then [live.value] else []
      ensures ClosesOnly(driver.commands[|old(driver.commands)|..], old(store.rows), session)
      ensures ok ==> Archived(old(store.rows), store.rows, session, removals.Keys, live) && live.Some? == connected
      ensures ok ==>
                SessionAsked(old(store.rows), session, removals.Keys, closing, pendingClose,
                             driver.commands[|old(driver.commands)|..], live, false)
      ensures Reliable() ==> ok
    {
      var rows, listed;
      ok, rows, listed := ReleaseSession(session);
      live := listed;
      if ok {
        var now := Now();
        ok := ArchiveRows(session, rows, listed, now);
      }
    }

    method ArchiveRows(session: SessionId, rows: seq<Stored>, live: Option<seq<Window>>, now: Time) returns (ok: bool)
      requires Valid() && now == clock
      requires Lists(store.rows, OpenOf(store.rows, session), rows) && live.Some? == connected
      requires live.Some? ==> Latest(live.value)
      modifies store, this`pendingClose, this`snapshots, this`closing, driver`commands
      ensures Valid() && Grew()
      ensures Keeps(old(store.rows), store.rows) && Owned(store.rows) <= Owned(old(store.rows))
      ensures OthersSame(old(store.rows), store.rows, session)
      ensures ClosesOnly(driver.commands[|old(driver.commands)|..], old(store.rows), session)
      ensures ok ==> Archived(old(store.rows), store.rows, session, removals.Keys, live)
      ensures ok ==>
                SessionAsked(old(store.rows), session, removals.Keys, closing, pendingClose,
                             driver.commands[|old(driver.commands)|..], live, false)
      ensures Reliable() ==> ok
    {
      ok := ArchiveOpen(session, rows, live, now);
      ghost var before, sent := store.rows, driver.commands[|old(driver.commands)|..];
      var rest;
      ghost var list;
      rest, list := ArchiveMissing(session);
      ArchivedBoth(old(store.rows), before, store.rows, session, removals.Keys, live, rows, list, ok, rest);
      AskedEverywhere(old(store.rows), session, rows, removals.Keys, closing, pendingClose, sent, live, false);
      ok := ok && rest;
    }

    method ArchiveOpen(session: SessionId, rows: seq<Stored>, live: Option<seq<Window>>, now: Time) returns (ok: bool)
      requires Valid() && now == clock
      requires Lists(store.rows, OpenOf(store.rows, session), rows) && live.Some? == connected
      requires live.Some? ==> Latest(live.value)
      modifies store, this`pendingClose, this`snapshots, this`closing, driver`commands
      ensures Valid() && Grew()
      ensures OpenArchived(old(store.rows), store.rows, rows, |rows|, removals.Keys, live, ok)
      ensures ClosesOnly(driver.commands[|old(driver.commands)|..], old(store.rows), session)
      ensures ok ==>
                AllAsked(rows, |rows|, removals.Keys, closing, pendingClose, driver.commands[|old(driver.commands)|..],
                         live, false)
      ensures Reliable() ==> ok
    {
      ok := true;
      ghost var sent := [];
      for i := 0 to |rows|
        invariant Reliable() ==> ok
        invariant Valid() && Grew() && driver.commands == old(driver.commands) + sent
        invariant Archiving(old(store.rows), store.rows, session, rows, i, removals.Keys, live, closing, pendingClose,
                            sent, ok)
      {
        RecountedIsWellFormed(old(store.log), old(store.ledger));
        ghost var more;
        ok, more := ArchiveNext(old(store.rows), session, rows, i, live, now, ok, sent);
        sent := sent + more;
      }
    }

    method ArchiveNext(ghost was: Table, ghost session: SessionId, rows: seq<Stored>, i: nat, live: Option<seq<Window>>,
                       now: Time, before: bool, ghost sent: seq<Command>)
      returns (ok: bool, ghost more: seq<Command>)
      requires Valid() && now == clock && (live.Some? ==> Latest(live.value)) && WellFormed(was)
      requires Lists(was, OpenOf(was, session), rows) && i < |rows|
      requires Archiving(was, store.rows, session, rows, i, removals.Keys, live, closing, pendingClose, sent, before)
      modifies store, this`pendingClose, this`snapshots, this`closing, driver`commands
      ensures Valid() && Grew() && driver.commands == old(driver.commands) + more
      ensures Archiving(was, store.rows, session, rows, i + 1, removals.Keys, live, closing, pendingClose, sent + more,
                        ok)
      ensures Reliable() && before ==> ok
    {
      NotYetReworked(was, store.rows, OpenOf(was, session), rows, i);
      var done;
      done, more := ArchiveRow(rows[i], live, now);
      ArchivingStep(was, old(store.rows), store.rows, session, rows, i, removals.Keys, live, old(closing),
                    old(pendingClose), sent, closing, pendingClose, more, before, done);
      ok := before && done;
    }

    /** Archives one open row; a window that could not be closed goes back to
        it, if the store lets it. */
    method ArchiveRow(r: Stored, live: Option<seq<Window>>, now: Time) returns (ok: bool, ghost sent: seq<Command>)
      requires Valid() && now == clock && r.id in store.rows && store.rows[r.id] == r.row && r.row.state.Open?
      requires live.Some? ==> Latest(live.value)
      modifies store, this`pendingClose, this`snapshots, this`closing, driver`commands
      ensures Valid() && Grew()
      ensures ReworkedAt(old(store.rows), store.rows, r.id)
      ensures driver.commands == old(driver.commands) + sent && sent <= [Close(r.row.window)]
      ensures ok ==> ArchivedRow(r.row, store.rows[r.id], removals.Keys, live)
      ensures !ok ==> KeptOrGivenBack(r.row, store.rows[r.id], live)
      ensures ok && r.row.window !in removals ==> Asked(closing, pendingClose, sent, live, r.id, r.row.window, false)
      ensures OnlyAbout(r.row.window, old(closing), old(pendingClose), closing, pendingClose)
      ensures Reliable() ==> ok
    {
      sent := [];
      if r.row.window in removals {
        return true, [];
      }
      var w := None;
      if live.Some? {
        w := FindLast(live.value, r.row.window);
      } else {
        NoteClose(r);
      }
      if w.None? {
        ok := Snapshotted(r.id, r.row.tabs, r.row.snapshotAt, None);
      } else {
        ok, sent := ArchiveLive(r, w.value, now);
      }
    }

    /** The window of a row is to be closed when the browser is back. */
    method NoteClose(r: Stored)
      requires Valid() && r.id in store.rows && store.rows[r.id] == r.row && r.row.state.Open?
      modifies store`log, store`ledger, this`pendingClose
      ensures Valid() && Grew() && pendingClose == old(pendingClose)[r.row.window := PendingClose(r.id, false)]
    {
      store.Note(CloseNoted(r.row.window, r.id));
      pendingClose := pendingClose[r.row.window := PendingClose(r.id, false)];
    }

    method ArchiveLive(r: Stored, w: Window, now: Time) returns (ok: bool, ghost sent: seq<Command>)
      requires Valid() && now == clock && r.id in store.rows && store.rows[r.id] == r.row && r.row.state.Open?
      requires w.id == r.row.window && Shown(driver.listings, w)
      modifies store, this`snapshots, this`closing, driver`commands
      ensures Valid() && Grew()
      ensures ReworkedAt(old(store.rows), store.rows, r.id)
      ensures driver.commands == old(driver.commands) + sent && sent <= [Close(w.id)]
      ensures ok ==>
                && store.rows[r.id].state.Snapshotted? && SameButTabs(r.row, store.rows[r.id])
                && store.rows[r.id].tabs == Merged(w, r.row.tabs)
      ensures ok ==> w.id in closing && sent == [Close(w.id)]
      ensures !ok ==>
                || store.rows[r.id] == r.row
                || (sent == [Close(w.id)] && ClosedRow(r.row, store.rows[r.id], Merged(w, r.row.tabs)))
      ensures OnlyAbout(w.id, old(closing), map[], closing, map[])
      ensures Reliable() ==> ok
    {
      sent := [];
      var tabs, usable := MergeTabs(w, r.row.tabs);
      var at := if usable then now else r.row.snapshotAt;
      ok := Snapshotted(r.id, tabs, at, if usable then Some(w) else None);
      if !ok {
        return;
      }
      ghost var before := store.rows;
      sent := [Close(w.id)];
      ok := CloseOrGiveBack(r.id, w.id, r.row.focusedAt);
      ReworkedOrGivenBack(old(store.rows), before, store.rows, r.id, w.id);
    }

    /** Closes the window of a row that was just snapshotted; a window that
        could not be closed goes back to its row. */
    method CloseOrGiveBack(id: RowId, w: WindowId, at: Time) returns (ok: bool)
      requires Valid() && id in store.rows && !store.rows[id].state.Open? && w !in Owned(store.rows)
      requires at == store.rows[id].focusedAt
      requires w in driver.known && w !in deferredAdopt
      modifies store, this`snapshots, this`closing, driver`commands
      ensures Valid() && Grew()
      ensures GivenBackAt(old(store.rows), store.rows, id, w)
      ensures driver.commands == old(driver.commands) + [Close(w)]
      ensures ok ==> store.rows == old(store.rows) && w in closing
      ensures !ok ==> store.rows == old(store.rows) || store.rows == WithReopened(old(store.rows), id, w, at)
      ensures OnlyAbout(w, old(closing), map[], closing, map[])
      ensures Reliable() ==> ok
    {
      ok := CloseWindow(w);
      if !ok {
        var _ := ReopenRow(id, w, at);
      }
    }

    method ArchiveMissing(session: SessionId) returns (ok: bool, ghost list: seq<Stored>)
      requires Valid()
      modifies store
      ensures Valid() && Grew()
      ensures ok ==> Lists(old(store.rows), RestorableOf(old(store.rows), session), list)
      ensures forall i :: 0 <= i < |list| ==> list[i].id in RestorableOf(old(store.rows), session)
      ensures Frozen(old(store.rows), store.rows, list, |list|, session, ok)
      ensures Reliable() ==> ok
    {
      list := [];
      var rows := store.ListRestorable(session);
      if rows.None? {
        return false, [];
      }
      ok, list := true, rows.value;
      ghost var was := store.rows;
      for i := 0 to |rows.value|
        invariant Reliable() ==> ok
        invariant Valid() && Grew() && Frozen(was, store.rows, list, i, session, ok)
      {
        ghost var before := store.rows;
        NotYetReworked(was, before, RestorableOf(was, session), list, i);
        var done := FreezeMissing(rows.value[i]);
        FrozenStep(was, before, store.rows, RestorableOf(was, session), list, i, session, ok, done);
        ok := ok && done;
      }
    }

    method FreezeMissing(r: Stored) returns (ok: bool)
      requires Valid() && r.id in store.rows && store.rows[r.id] == r.row && !r.row.state.Open?
      modifies store
      ensures Valid() && Grew()
      ensures ReworkedAt(old(store.rows), store.rows, r.id)
      ensures SameButState(r.row, store.rows[r.id])
      ensures (ok ==> store.rows[r.id].state.Snapshotted?)
      ensures Reliable() ==> ok
    {
      store.Tidy();
      ok := true;
      if r.row.state.Missing? {
        ok := Snapshotted(r.id, r.row.tabs, r.row.snapshotAt, None);
      }
    }

    /** Forgets every row of the session and closes its windows, now or when
        the browser is back. */
    method Delete(session: SessionId) returns (ok: bool, ghost live: Option<seq<Window>>)
      requires Valid()
      modifies store, driver`known, driver`listings, driver`commands, this`attached, this`deferredAdopt
      modifies this`pendingClose, this`snapshots, this`closing
      ensures Valid() && Grew()
      ensures store.rows == old(store.rows) || store.rows == WithoutSession(old(store.rows), session)
      ensures driver.listings == old(driver.listings) + if live.Some? then [live.value] else []
      ensures ClosesOnly(driver.commands[|old(driver.commands)|..], old(store.rows), session)
      ensures ok ==> store.rows == WithoutSession(old(store.rows), session) && live.Some? == connected
      ensures ok ==>
                SessionAsked(old(store.rows), session, {}, closing, pendingClose,
                             driver.commands[|old(driver.commands)|..], live, true)
      ensures Reliable() ==> ok
    {
      var rows, listed;
      ok, rows, listed := ReleaseSession(session);
      live := listed;
      if ok {
        ok := CloseAll(session, rows, listed);
        AskedEverywhere(old(store.rows), session, rows, {}, closing, pendingClose,
                        driver.commands[|old(driver.commands)|..], listed, true);
        var deleted := DeleteRows(session);
        ok := ok && deleted;
      }
    }

    method DeleteRows(session: SessionId) returns (ok: bool)
      requires Valid()
      modifies store
      ensures Valid() && Grew()
      ensures store.rows == if ok then WithoutSession(old(store.rows), session) else old(store.rows)
      ensures Reliable() ==> ok
    {
      ReleaseEffects(store.rows, WithoutSession(store.rows, session));
      ok := store.DeleteBySession(session);
    }

    method CloseAll(session: SessionId, rows: seq<Stored>, live: Option<seq<Window>>) returns (ok: bool)
      requires Valid() && Lists(store.rows, OpenOf(store.rows, session), rows)
      modifies this`pendingClose, this`snapshots, this`closing, driver`commands
      ensures Valid() && |old(driver.commands)| <= |driver.commands|
      ensures ClosesOnly(driver.commands[|old(driver.commands)|..], store.rows, session)
      ensures ok ==>
                AllAsked(rows, |rows|, {}, closing, pendingClose, driver.commands[|old(driver.commands)|..], live, true)
      ensures Reliable() ==> ok
    {
      store.Tidy();
      ok := true;
      ghost var sent := [];
      for i := 0 to |rows|
        invariant Reliable() ==> ok
        invariant Valid() && driver.commands == old(driver.commands) + sent && ClosesOnly(sent, store.rows, session)
        invariant ok ==> AllAsked(rows, i, {}, closing, pendingClose, sent, live, true)
      {
        ghost var closing0, pending0, sent0 := closing, pendingClose, sent;
        var done;
        ghost var more;
        done, more := CloseOrNote(rows[i], live);
        sent := sent + more;
        OwnWindowOnly(store.rows, session, rows, i, sent0, more);
        if done {
          AskedLater(closing, pendingClose, sent0, more, live, rows[i].id, rows[i].row.window, true);
          AskedStep(store.rows, session, rows, i, {}, closing0, pending0, sent0, closing, pendingClose, sent, live,
                    true);
        }
        ok := ok && done;
      }
    }

    method CloseOrNote(r: Stored, live: Option<seq<Window>>) returns (ok: bool, ghost sent: seq<Command>)
      requires Valid()
      modifies this`pendingClose, this`snapshots, this`closing, driver`commands
      ensures Valid()
      ensures driver.commands == old(driver.commands) + sent && sent <= [Close(r.row.window)]
      ensures ok ==> Asked(closing, pendingClose, sent, live, r.id, r.row.window, true)
      ensures OnlyAbout(r.row.window, old(closing), old(pendingClose), closing, pendingClose)
      ensures Reliable() ==> ok
    {
      ok, sent := true, [];
      if live.None? {
        pendingClose := pendingClose[r.row.window := PendingClose(r.id, true)];
      } else if r.row.window in ListedIds(live.value) {
        sent := [Close(r.row.window)];
        ok := CloseWindow(r.row.window);
      }
    }

    // --- connecting --------------------------------------------------------------------

    /** Closes the windows of sessions archived or deleted while the browser
        was away; an archived row first takes a last snapshot of its window. */
    method ClosePending(windows: seq<Window>) returns (ok: bool)
      requires Valid() && Latest(windows)
      modifies store, this`clock, this`pendingClose, this`snapshots, this`closing, driver`commands
      ensures Valid() && Grew() && pendingClose == map[]
      ensures old(driver.commands) <= driver.commands
      ensures ClosedLate(old(store.rows), store.rows, old(pendingClose), {}, windows, closing,
                         driver.commands[|old(driver.commands)|..], ok)
      ensures old(pendingClose) == map[] ==> store.rows == old(store.rows)
      ensures Reliable() ==> ok
    {
      ghost var sent;
      ok, sent := CloseEach(windows);
      NothingClosedLate(old(store.rows), store.rows, pendingClose, windows, closing, sent, ok);
      pendingClose := map[];
    }

    method CloseEach(windows: seq<Window>) returns (ok: bool, ghost sent: seq<Command>)
      requires Valid() && Latest(windows)
      modifies store, this`clock, this`snapshots, this`closing, driver`commands
      ensures Valid() && Grew() && driver.commands == old(driver.commands) + sent
      ensures ClosedLate(old(store.rows), store.rows, pendingClose, {}, windows, closing, sent, ok)
      ensures Reliable() ==> ok
    {
      ok, sent := true, [];
      var now := Now();
      var rest := pendingClose.Keys;
      while rest != {}
        invariant Reliable() ==> ok
        invariant Valid() && Grew() && rest <= pendingClose.Keys && now == clock
        invariant driver.commands == old(driver.commands) + sent
        invariant ClosedLate(old(store.rows), store.rows, pendingClose, rest, windows, closing, sent, ok)
        decreases |rest|
      {
        var w :| w in rest;
        ghost var more;
        ok, more := CloseNext(old(store.rows), rest, w, windows, now, ok, sent);
        sent := sent + more;
        rest := rest - {w};
      }
    }

    method CloseNext(ghost was: Table, ghost rest: set<WindowId>, w: WindowId, windows: seq<Window>, now: Time,
                     before: bool, ghost sent: seq<Command>)
      returns (ok: bool, ghost more: seq<Command>)
      requires Valid() && now == clock && Latest(windows) && w in rest && w in pendingClose
      requires ClosedLate(was, store.rows, pendingClose, rest, windows, closing, sent, before)
      modifies store, this`snapshots, this`closing, driver`commands
      ensures Valid() && Grew() && driver.commands == old(driver.commands) + more
      ensures ClosedLate(was, store.rows, pendingClose, rest - {w}, windows, closing, sent + more, ok)
      ensures Reliable() && before ==> ok
    {
      var done;
      done, more := CloseLate(w, pendingClose[w], windows, now);
      ClosedLateOne(was, old(store.rows), store.rows, pendingClose, rest, windows, w, old(closing), sent, closing, more,
                    before, done);
      ok := before && done;
    }

    /** Closes one window late, after a last snapshot if its row was archived. */
    method CloseLate(w: WindowId, op: PendingClose, windows: seq<Window>, now: Time)
      returns (ok: bool, ghost sent: seq<Command>)
      requires Valid() && now == clock && Latest(windows) && w in pendingClose && pendingClose[w] == op
      modifies store, this`snapshots, this`closing, driver`commands
      ensures Valid() && Grew()
      ensures driver.commands == old(driver.commands) + sent
      ensures OneClosedLate(old(store.rows), store.rows, op, windows, w, closing, sent, ok)
      ensures OnlyAbout(w, old(closing), map[], closing, map[])
      ensures ok ==> (StillOpen(old(store.rows), store.rows) <==> !TakesReopened(old(store.rows), op, windows, w))
      ensures Reliable() ==> ok
    {
      sent := [];
      var v := FindWindow(windows, w);
      if v.None? {
        return true, [];
      }
      ok := true;
      if !op.deleted {
        LateCloseTakes(store.rows, op, windows, w, now);
        ok := SnapshotClosing(op.row, v.value, now);
      }
      sent := [Close(w)];
      var closed := CloseWindow(w);
      ok := ok && closed;
    }

    method SnapshotClosing(id: RowId, w: Window, at: Time) returns (ok: bool)
      requires Valid() && at == clock
      requires Shown(driver.listings, w) && w.id in store.ledger.toClose && store.ledger.toClose[w.id] == id
      modifies store
      ensures Valid() && Grew()
      ensures ok && id in old(store.rows) && Savable(w) ==>
                store.rows == WithSnapshot(old(store.rows), id, Merged(w, old(store.rows)[id].tabs), at)
      ensures !ok || id !in old(store.rows) || !Savable(w) ==> store.rows == old(store.rows)
      ensures Keeps(old(store.rows), store.rows) && Owned(store.rows) <= Owned(old(store.rows))
      ensures Reliable() ==> ok
    {
      var r := store.Get(id);
      if !r.Found? {
        return r.NotFound?;
      }
      var tabs, usable := MergeTabs(w, r.row.tabs);
      ok := true;
      if usable {
        ok := Snapshotted(id, tabs, at, Some(w));
      }
    }

    /** Reopens missing rows in the windows of the restarted browser that match
        them; a comparable window that matches none is not tried again. */
    method ReattachAll(windows: seq<Window>) returns (ok: bool, ghost matches: map<WindowId, RowId>, ghost at: Time)
      requires Valid() && Latest(windows) && ListedIds(windows) <= driver.known && deferredAdopt == map[]
      modifies store, this`clock, this`restoreUntil, this`reattachRejected
      ensures Valid() && Grew() && restoreUntil in {0, old(restoreUntil)}
      ensures Rematched(old(store.rows), store.rows, matches, {}, at, ok)
      ensures GainsFrom(old(store.rows), store.rows, ListedIds(windows))
      ensures ok ==> MatchesOf(old(store.rows), windows, Owned(old(store.rows)), matches) && OneRowEach(matches)
      ensures ok && MissingRows(old(store.rows)) != {} ==>
                reattachRejected == old(reattachRejected) + Rejections(windows, matches, Owned(old(store.rows)))
      ensures MissingRows(old(store.rows)) == {} ==> reattachRejected == old(reattachRejected)
      ensures ok ==> restoreUntil == Deadline(old(restoreUntil), |MissingRows(old(store.rows))| - |matches|)
      ensures Reliable() ==> ok
    {
      matches, at := map[], 0;
      var rows := store.ListMissing();
      ok := rows.Some?;
      if ok {
        AnyListedMissing(store.rows, rows.value);
        ok, matches, at := ReattachListing(rows.value, windows);
      }
    }

    method ReattachListing(rows: seq<Stored>, windows: seq<Window>)
      returns (ok: bool, ghost matches: map<WindowId, RowId>, ghost at: Time)
      requires Valid() && Latest(windows) && ListedIds(windows) <= driver.known && deferredAdopt == map[]
      requires Lists(store.rows, MissingRows(store.rows), rows) && |rows| == |MissingRows(store.rows)|
      modifies store, this`clock, this`restoreUntil, this`reattachRejected
      ensures Valid() && Grew() && restoreUntil in {0, old(restoreUntil)}
      ensures Rematched(old(store.rows), store.rows, matches, {}, at, ok)
      ensures GainsFrom(old(store.rows), store.rows, ListedIds(windows))
      ensures ok ==> MatchesOf(old(store.rows), windows, Owned(old(store.rows)), matches) && OneRowEach(matches)
      ensures ok && rows != [] ==>
                reattachRejected == old(reattachRejected) + Rejections(windows, matches, Owned(old(store.rows)))
      ensures rows == [] ==> reattachRejected == old(reattachRejected)
      ensures ok ==> restoreUntil == Deadline(old(restoreUntil), |rows| - |matches|)
      ensures Reliable() ==> ok
    {
      matches, at, ok := map[], 0, true;
      var more := KeepRestoring(|rows|);
      if more {
        var owned := store.OwnedWindows();
        ok := owned.Some?;
        if ok {
          var now := Now();
          at := now;
          ok, matches := ReattachRows(rows, windows, owned.value, now);
        }
      } else {
        NothingToMatch(store.rows, windows, Owned(store.rows));
      }
    }

    method ReattachRows(rows: seq<Stored>, windows: seq<Window>, owned: set<WindowId>, now: Time)
      returns (ok: bool, ghost matches: map<WindowId, RowId>)
      requires Valid() && now == clock
      requires Latest(windows) && ListedIds(windows) <= driver.known && deferredAdopt == map[]
      requires Lists(store.rows, MissingRows(store.rows), rows) && owned == Owned(store.rows)
      modifies store, this`restoreUntil, this`reattachRejected
      ensures Valid() && Grew() && restoreUntil in {0, old(restoreUntil)}
      ensures MatchesOf(old(store.rows), windows, owned, matches) && OneRowEach(matches)
      ensures Rematched(old(store.rows), store.rows, matches, {}, now, ok)
      ensures GainsFrom(old(store.rows), store.rows, ListedIds(windows))
      ensures reattachRejected == old(reattachRejected) + Rejections(windows, matches, owned)
      ensures restoreUntil == Deadline(old(restoreUntil), |rows| - |matches|)
      ensures Reliable() ==> ok
    {
      var found := MatchRows(rows, windows, owned);
      matches := found;
      ok := ReopenMatches(found, ListedIds(windows), now);
      LeaveOthers(windows, found, owned, |rows| - |found|);
    }

    /** The windows and rows that are left over. */
    method LeaveOthers(windows: seq<Window>, matches: map<WindowId, RowId>, owned: set<WindowId>, missing: int)
      requires Valid()
      modifies this`restoreUntil, this`reattachRejected
      ensures Valid()
      ensures reattachRejected == old(reattachRejected) + Rejections(windows, matches, owned)
      ensures restoreUntil == Deadline(old(restoreUntil), missing)
    {
      RejectOthers(windows, matches, owned);
      var _ := KeepRestoring(missing);
    }

    method ReopenMatches(matches: map<WindowId, RowId>, ghost ids: set<WindowId>, now: Time) returns (ok: bool)
      requires Valid() && now == clock && deferredAdopt == map[] && matches.Keys <= ids <= driver.known
      requires CanReopen(store.rows, matches, matches.Keys) && OneRowEach(matches)
      modifies store
      ensures Valid() && Grew()
      ensures Rematched(old(store.rows), store.rows, matches, {}, now, ok)
      ensures GainsFrom(old(store.rows), store.rows, ids)
      ensures Reliable() ==> ok
    {
      ok := true;
      var rest := matches.Keys;
      while rest != {}
        invariant Reliable() ==> ok
        invariant Valid() && Grew() && rest <= matches.Keys
        invariant Rematching(old(store.rows), store.rows, ids, matches, rest, now, ok)
        decreases |rest|
      {
        var w :| w in rest;
        ok := ReopenNext(old(store.rows), ids, matches, rest, w, now, ok);
        rest := rest - {w};
      }
    }

    method ReopenNext(ghost was: Table, ghost ids: set<WindowId>, matches: map<WindowId, RowId>,
                      ghost rest: set<WindowId>, w: WindowId, now: Time, before: bool)
      returns (ok: bool)
      requires Valid() && now == clock
      requires deferredAdopt == map[] && w in rest && rest <= matches.Keys <= ids <= driver.known
      requires OneRowEach(matches)
      requires Rematching(was, store.rows, ids, matches, rest, now, before)
      modifies store
      ensures Valid() && Grew() && Rematching(was, store.rows, ids, matches, rest - {w}, now, ok)
      ensures Reliable() && before ==> ok
    {
      var done := ReopenMatch(matches, w, rest, now);
      RematchingOne(was, old(store.rows), store.rows, ids, matches, rest, w, now, before, done);
      ok := before && done;
    }

    method ReopenMatch(matches: map<WindowId, RowId>, w: WindowId, ghost rest: set<WindowId>, now: Time)
      returns (ok: bool)
      requires Valid() && now == clock
      requires deferredAdopt == map[] && w in rest && rest <= matches.Keys && w in driver.known
      requires CanReopen(store.rows, matches, rest) && OneRowEach(matches)
      modifies store
      ensures Valid() && Grew() && CanReopen(store.rows, matches, rest - {w})
      ensures Gains(old(store.rows), store.rows, w)
      ensures store.rows == if ok && w != "" then WithReopened(old(store.rows), matches[w], w, now) else old(store.rows)
      ensures Reliable() ==> ok
    {
      ok := ReopenRow(matches[w], w, now);
      CanReopenRest(old(store.rows), store.rows, matches, rest, w, now);
    }

    /** Rejects exactly the comparable windows neither matched nor owned. */
    method RejectOthers(windows: seq<Window>, matches: map<WindowId, RowId>, owned: set<WindowId>)
      modifies this`reattachRejected
      ensures reattachRejected == old(reattachRejected) + Rejections(windows, matches, owned)
    {
      for i := 0 to |windows|
        invariant reattachRejected == old(reattachRejected) + Rejections(windows[..i], matches, owned)
      {
        var keys := Reattach.ComputeUrlSet(Reattach.WindowUrls(windows[i]));
        RejectionsStep(windows, i, matches, owned);
        if windows[i].id !in matches && windows[i].id !in owned && |keys| > 0 {
          reattachRejected := reattachRejected + {windows[i].id};
        }
      }
      assert windows[..|windows|] == windows;
    }

    /** Notices that the browser restarted: no window of the old run is owned,
        waited for or remembered any more. */
    method TrackRun(run': string) returns (ok: bool, restarted: bool)
      requires Valid()
      modifies store, this`run, this`runLoaded, this`deferredAdopt, this`daemonUnowned, this`reattachRejected
      modifies this`pendingClose
      ensures Valid() && Grew()
      ensures ok ==> (restarted <==> run' != "" && run' != old(KnownRun()))
      ensures restarted ==> ok && run == run' && store.runId == run' && store.rows == MissingExcept(old(store.rows), {})
      ensures restarted ==>
                deferredAdopt == map[] && daemonUnowned == {} && reattachRejected == {} && pendingClose == map[]
      ensures !restarted ==> deferredAdopt == old(deferredAdopt) && pendingClose == old(pendingClose)
      ensures !restarted && (ok || run' == "" || run' == old(KnownRun())) ==> store.rows == old(store.rows)
      ensures store.rows == old(store.rows) || store.rows == MissingExcept(old(store.rows), {})
      ensures run' == "" || run' == old(KnownRun()) ==> !restarted
      ensures ok && run' != "" ==> run == run'
      ensures store.reliable ==> ok
    {
      restarted := false;
      if run' == "" {
        return true, false;
      }
      if !runLoaded {
        var stored := store.RunId();
        if stored.None? {
          return false, false;
        }
        run, runLoaded := stored.value, true;
      }
      if run' == run {
        return true, false;
      }
      restarted := NewRun(run');
      ok := restarted;
    }

    method NewRun(run': string) returns (ok: bool)
      requires Valid()
      modifies store, this`run, this`deferredAdopt, this`daemonUnowned, this`reattachRejected, this`pendingClose
      ensures Valid() && Grew()
      ensures store.rows == old(store.rows) || store.rows == MissingExcept(old(store.rows), {})
      ensures ok ==> run == run' && store.runId == run' && store.rows == MissingExcept(old(store.rows), {})
      ensures ok ==> deferredAdopt == map[] && daemonUnowned == {} && reattachRejected == {} && pendingClose == map[]
      ensures !ok ==> deferredAdopt == old(deferredAdopt) && pendingClose == old(pendingClose) && run == old(run)
      ensures store.reliable ==> ok
    {
      ok := MissExcept({});
      if ok {
        ok := store.SetRunId(run');
      }
      if ok {
        run, deferredAdopt, daemonUnowned, reattachRejected, pendingClose := run', map[], {}, {}, map[];
      }
    }

    method MissExcept(live: set<WindowId>) returns (ok: bool)
      requires Valid()
      modifies store`rows, store`log, store`ledger
      ensures Valid() && Grew()
      ensures store.rows == if ok then MissingExcept(old(store.rows), live) else old(store.rows)
      ensures Keeps(old(store.rows), store.rows)
      ensures Owned(store.rows) == if ok then Owned(old(store.rows)) * live else Owned(old(store.rows))
      ensures store.reliable ==> ok
    {
      MissingEffects(store.rows, live);
      ok := store.MarkMissingExcept(live);
    }

    /** Saves every owned window that is listed. */
    method SnapshotOwned(windows: seq<Window>) returns (ok: bool)
      requires Valid() && Latest(windows)
      modifies store, this`clock
      ensures Valid() && Grew()
      ensures Resaved(old(store.rows), store.rows)
      ensures ok && DistinctListed(windows) ==>
                OwnedSaved(old(store.rows), store.rows, windows) && UpToDate(store.rows, windows)
      ensures Reliable() ==> ok
    {
      var owned := store.OwnedWindows();
      if owned.None? {
        return false;
      }
      var now := Now();
      ok := SaveAll(windows, owned.value, now);
    }

    method SaveAll(windows: seq<Window>, owned: set<WindowId>, now: Time) returns (ok: bool)
      requires Valid() && now == clock && Latest(windows) && owned == Owned(store.rows)
      modifies store
      ensures Valid() && Grew()
      ensures Resaved(old(store.rows), store.rows)
      ensures ok && DistinctListed(windows) ==>
                OwnedSaved(old(store.rows), store.rows, windows) && UpToDate(store.rows, windows)
      ensures Reliable() ==> ok
    {
      store.Tidy();
      ok := true;
      for i := 0 to |windows|
        invariant Reliable() ==> ok
        invariant Valid() && Grew() && Saving(old(store.rows), store.rows, windows, i, ok)
      {
        ok := SaveNext(old(store.rows), windows, i, owned, now, ok);
      }
      store.Tidy();
      SavingDone(old(store.rows), store.rows, windows, ok);
    }

    method SaveNext(ghost was: Table, windows: seq<Window>, i: nat, owned: set<WindowId>, now: Time, before: bool)
      returns (ok: bool)
      requires Valid() && now == clock
      requires WellFormed(was) && Saving(was, store.rows, windows, i, before) && i < |windows|
      requires owned == Owned(was) && Latest(windows)
      modifies store
      ensures Valid() && Grew()
      ensures Saving(was, store.rows, windows, i + 1, ok)
      ensures Reliable() && before ==> ok
    {
      store.Tidy();
      var saved := SaveIfOwned(windows[i], owned, now);
      store.Tidy();
      SavingStep(was, old(store.rows), store.rows, windows, i, now, before, saved);
      ok := before && saved;
    }

    method SaveIfOwned(w: Window, owned: set<WindowId>, now: Time) returns (ok: bool)
      requires Valid() && now == clock && owned == Owned(store.rows) && Shown(driver.listings, w)
      modifies store
      ensures Valid() && Grew()
      ensures Resaved(old(store.rows), store.rows)
      ensures ok ==> store.rows == Snapshotting(old(store.rows), Some(w), now)
      ensures Reliable() ==> ok
    {
      ok := true;
      if Savable(w) {
        SavedEffects(store.rows, w, now);
      }
      if w.id in owned {
        ok := SaveTabs(w, now);
      }
    }

    method LastListedFocus(windows: seq<Window>) returns (w: WindowId)
      ensures w == LastFocusIn(windows)
    {
      w := "";
      for i := 0 to |windows|
        invariant w == LastFocusIn(windows[..i])
      {
        assert windows[..i + 1][..i] == windows[..i];
        if windows[i].focused {
          w := windows[i].id;
        }
      }
      assert windows[..|windows|] == windows;
    }

    /** Brings the table in line with the windows that are there now: afterwards
        no row owns, and nothing waits for, a window that is not listed; rows
        whose windows are listed keep them; after a restart the missing rows own
        the windows they are matched with. */
    method Resync(restarted: bool) returns (ok: bool, ghost listed: Option<seq<Window>>)
      requires Valid() && (restarted ==> deferredAdopt == map[] && pendingClose == map[] && Owned(store.rows) == {})
      modifies store, driver`known, driver`listings, driver`commands, this`clock, this`restoreUntil, this`unowned
      modifies this`lastFocused, this`prevFocused
      modifies this`deferredAdopt, this`pendingClose, this`snapshots, this`closing, this`reattachRejected, this`attached
      ensures Valid() && Grew() && Keeps(old(store.rows), store.rows)
      ensures driver.listings == old(driver.listings) + if listed.Some? then [listed.value] else []
      ensures old(driver.commands) <= driver.commands
      ensures listed.None? ==>
                !ok && store.rows == old(store.rows) && pendingClose == old(pendingClose) && unowned == old(unowned)
      ensures listed.Some? ==>
                pendingClose == map[] && unowned == {} && prevFocused == "" && lastFocused == LastFocusIn(listed.value)
      ensures listed.Some? ==>
                ListedStay(old(store.rows), store.rows, ListedIds(listed.value), {}, ArchivedIn(old(pendingClose)))
      ensures ok ==> listed.Some? && Aligned(store.rows, deferredAdopt, listed.value)
      ensures ok ==> CarriedOut(old(pendingClose), listed.value, closing, driver.commands[|old(driver.commands)|..])
      ensures ok && restarted ==>
                RestartOwners(old(store.rows), store.rows, listed.value, old(restoreUntil), restoreUntil)
      ensures ok ==>
                Realigned(old(store.rows), store.rows, ListedIds(listed.value),
                          if restarted then ListedIds(listed.value) else old(deferredAdopt).Keys,
                          ArchivedIn(old(pendingClose)))
      ensures Reliable() ==> ok
    {
      var windows := List();
      listed := windows;
      if windows.None? {
        return false, None;
      }
      ok := ResyncListed(windows.value, restarted);
    }

    method ResyncListed(windows: seq<Window>, restarted: bool) returns (ok: bool)
      requires Valid() && (restarted ==> deferredAdopt == map[] && pendingClose == map[] && Owned(store.rows) == {})
      requires Latest(windows) && ListedIds(windows) <= driver.known
      modifies store, driver`commands, this`clock, this`restoreUntil, this`unowned, this`lastFocused, this`prevFocused
      modifies this`deferredAdopt, this`pendingClose
      modifies this`snapshots, this`closing, this`reattachRejected, this`attached
      ensures Valid() && Grew() && Keeps(old(store.rows), store.rows) && pendingClose == map[]
      ensures unowned == {} && prevFocused == "" && lastFocused == LastFocusIn(windows)
      ensures old(driver.commands) <= driver.commands
      ensures ListedStay(old(store.rows), store.rows, ListedIds(windows), {}, ArchivedIn(old(pendingClose)))
      ensures ok ==> Aligned(store.rows, deferredAdopt, windows)
      ensures ok ==> CarriedOut(old(pendingClose), windows, closing, driver.commands[|old(driver.commands)|..])
      ensures ok && restarted ==> RestartOwners(old(store.rows), store.rows, windows, old(restoreUntil), restoreUntil)
      ensures ok ==>
                Realigned(old(store.rows), store.rows, ListedIds(windows),
                          if restarted then ListedIds(windows) else old(deferredAdopt).Keys,
                          ArchivedIn(old(pendingClose)))
      ensures Reliable() ==> ok
    {
      Refocus(windows);
      ok := CloseAndAlign(windows, restarted);
      SeedAttached();
    }

    /** Forgets new windows of nobody's and takes the focus from the listing. */
    method Refocus(windows: seq<Window>)
      requires Valid()
      modifies this`unowned, this`lastFocused, this`prevFocused
      ensures Valid()
      ensures unowned == {} && prevFocused == "" && lastFocused == LastFocusIn(windows)
    {
      unowned, prevFocused := {}, "";
      lastFocused := LastListedFocus(windows);
    }

    method CloseAndAlign(windows: seq<Window>, restarted: bool) returns (ok: bool)
      requires Valid() && (restarted ==> deferredAdopt == map[] && pendingClose == map[] && Owned(store.rows) == {})
      requires Latest(windows) && ListedIds(windows) <= driver.known
      modifies store, this`clock, this`restoreUntil, this`deferredAdopt, this`pendingClose, this`snapshots, this`closing
      modifies driver`commands, this`reattachRejected
      ensures Valid() && Grew() && Keeps(old(store.rows), store.rows) && pendingClose == map[]
      ensures old(driver.commands) <= driver.commands
      ensures ListedStay(old(store.rows), store.rows, ListedIds(windows), {}, ArchivedIn(old(pendingClose)))
      ensures ok ==> Aligned(store.rows, deferredAdopt, windows)
      ensures ok ==> CarriedOut(old(pendingClose), windows, closing, driver.commands[|old(driver.commands)|..])
      ensures ok && restarted ==> RestartOwners(old(store.rows), store.rows, windows, old(restoreUntil), restoreUntil)
      ensures ok ==>
                Realigned(old(store.rows), store.rows, ListedIds(windows),
                          if restarted then ListedIds(windows) else old(deferredAdopt).Keys,
                          ArchivedIn(old(pendingClose)))
      ensures Reliable() ==> ok
    {
      var closed := ClosePending(windows);
      ghost var before := store.rows;
      ok := Align(windows, restarted);
      KeepsTwice(old(store.rows), before, store.rows);
      if ok {
        RealignedAfterClosing(old(store.rows), before, store.rows, ListedIds(windows),
                              if restarted then ListedIds(windows) else old(deferredAdopt).Keys,
                              ArchivedIn(old(pendingClose)));
      }
      ok := ok && closed;
    }

    method Align(windows: seq<Window>, restarted: bool) returns (ok: bool)
      requires Valid() && (restarted ==> deferredAdopt == map[] && Owned(store.rows) == {}) && Latest(windows)
      requires ListedIds(windows) <= driver.known
      modifies store, this`clock, this`restoreUntil, this`deferredAdopt, this`reattachRejected
      ensures Valid() && Grew() && Keeps(old(store.rows), store.rows)
      ensures ListedStay(old(store.rows), store.rows, ListedIds(windows), {}, {})
      ensures ok ==> Aligned(store.rows, deferredAdopt, windows)
      ensures ok && restarted ==> RestartOwners(old(store.rows), store.rows, windows, old(restoreUntil), restoreUntil)
      ensures ok ==>
                Realigned(old(store.rows), store.rows, ListedIds(windows),
                          if restarted then ListedIds(windows) else old(deferredAdopt).Keys, {})
      ensures Reliable() ==> ok
    {
      ok := MissExcept(ListedIds(windows));
      if !ok {
        return;
      }
      ghost var before := store.rows;
      if restarted {
        NoneToMiss(old(store.rows), ListedIds(windows));
        ok := AlignRestarted(windows);
      } else {
        ok := AlignSettled(windows);
      }
      KeepsTwice(old(store.rows), before, store.rows);
      ListedStayAfter(old(store.rows), before, store.rows, ListedIds(windows));
      RealignedAfterMissing(old(store.rows), before, store.rows, ListedIds(windows),
                            if restarted then ListedIds(windows) else old(deferredAdopt).Keys);
    }

    method AlignSettled(windows: seq<Window>) returns (ok: bool)
      requires Valid() && Latest(windows) && ListedIds(windows) <= driver.known
      requires Owned(store.rows) <= ListedIds(windows)
      modifies store, this`clock, this`restoreUntil, this`deferredAdopt
      ensures Valid() && Grew() && Keeps(old(store.rows), store.rows) && StillOpen(old(store.rows), store.rows)
      ensures ok ==> Aligned(store.rows, deferredAdopt, windows)
      ensures Realigned(old(store.rows), store.rows, Owned(old(store.rows)), old(deferredAdopt).Keys, {})
      ensures old(deferredAdopt) == map[] ==>
                deferredAdopt == map[] && restoreUntil == old(restoreUntil) && Resaved(old(store.rows), store.rows)
      ensures Reliable() ==> ok
    {
      var resolved := ResolveDeferred(windows);
      ghost var before := store.rows;
      var saved := SnapshotOwned(windows);
      GainsThenSaved(old(store.rows), before, store.rows, old(deferredAdopt).Keys * ListedIds(windows));
      ok := resolved && saved;
    }

    method AlignRestarted(windows: seq<Window>) returns (ok: bool)
      requires Valid() && Latest(windows) && ListedIds(windows) <= driver.known && deferredAdopt == map[]
      requires Owned(store.rows) == {}
      modifies store, this`clock, this`restoreUntil, this`deferredAdopt, this`reattachRejected
      ensures Valid() && Grew() && Keeps(old(store.rows), store.rows) && StillOpen(old(store.rows), store.rows)
      ensures ok ==> Aligned(store.rows, deferredAdopt, windows)
      ensures ok ==> RestartOwners(old(store.rows), store.rows, windows, old(restoreUntil), restoreUntil)
      ensures Realigned(old(store.rows), store.rows, Owned(old(store.rows)), ListedIds(windows), {})
      ensures Reliable() ==> ok
    {
      ghost var matches, at;
      ok, matches, at := ReattachAll(windows);
      ghost var before := store.rows;
      store.Tidy();
      var settled := AlignSettled(windows);
      store.Tidy();
      KeepsTwice(old(store.rows), before, store.rows);
      GainsThenSaved(old(store.rows), before, store.rows, ListedIds(windows));
      if ok && settled {
        OwnersAreMatched(old(store.rows), before, matches, at);
        OwnsBySaved(before, store.rows, matches);
      }
      ok := ok && settled;
    }

    /** The session to show when none is known to be attached. */
    method SeedAttached()
      requires Valid()
      modifies this`attached
      ensures Valid()
      ensures old(attached) != 0 ==> attached == old(attached)
    {
      if attached == 0 {
        attached := *;
      }
    }

    /** The browser connected: closed windows that waited to be forgotten are
        kept, a restart is noticed, and the table is brought in line. */
    method Connected(run': string) returns (ok: bool, ghost listed: Option<seq<Window>>)
      requires Valid()
      modifies store, driver`known, driver`listings, driver`commands, this`connected, this`removals, this`run
      modifies this`runLoaded, this`daemonUnowned, this`clock
      modifies this`restoreUntil, this`unowned, this`lastFocused, this`prevFocused, this`deferredAdopt
      modifies this`pendingClose, this`snapshots, this`closing
      modifies this`reattachRejected, this`attached, this`ensuredFor
      ensures Valid() && connected && removals == map[]
      ensures old(store.log) <= store.log && store.ledger.connection == old(store.ledger.connection) + 1
      ensures driver.announced == old(driver.announced) && old(driver.commands) <= driver.commands
      ensures driver.listings == old(driver.listings) + if listed.Some? then [listed.value] else []
      ensures Keeps(old(store.rows), store.rows)
      ensures ok ==> listed.Some? && Aligned(store.rows, deferredAdopt, listed.value)
      ensures ok && run' != "" ==> run == run'
      ensures ok && run' != "" && run' != old(KnownRun()) ==>
                && ensuredFor == 0
                && RestartOwnersOf(old(store.rows), store.rows, listed.value, restoreWindow, old(clock), clock,
                                   restoreUntil)
                && Realigned(old(store.rows), store.rows, {}, ListedIds(listed.value), {})
      ensures ok && (run' == "" || run' == old(KnownRun())) ==>
                && CarriedOut(old(pendingClose), listed.value, closing, driver.commands[|old(driver.commands)|..])
                && ListedStay(old(store.rows), store.rows, ListedIds(listed.value), old(removals).Keys,
                              ArchivedIn(old(pendingClose)))
                && Realigned(old(store.rows), store.rows, ListedIds(listed.value) - old(removals).Keys,
                             old(deferredAdopt).Keys, ArchivedIn(old(pendingClose)))
      ensures listed.None? ==>
                FlushedOnly(old(store.rows), store.rows, old(removals).Keys, run' != "" && run' != old(KnownRun()),
                            store.reliable)
      ensures Reliable() ==> ok
    {
      var flushed := BeginConnection();
      ghost var before := store.rows;
      ghost var restarted;
      ok, restarted, listed := Resume(run');
      KeepsTwice(old(store.rows), before, store.rows);
      ok := ok && flushed;
    }

    method BeginConnection() returns (flushed: bool)
      requires Valid()
      modifies store`rows, store`log, store`ledger, this`connected, this`removals
      ensures Valid() && connected && removals == map[] && KnownRun() == old(KnownRun())
      ensures old(store.log) <= store.log && store.ledger.connection == old(store.ledger.connection) + 1
      ensures Begun(old(store.rows), store.rows, old(removals).Keys, flushed)
      ensures PartlyFlushed(old(store.rows), store.rows, old(removals).Keys, flushed)
      ensures store.reliable ==> flushed
    {
      connected := true;
      flushed := FlushRemovals();
      FlushedIsBegun(old(store.rows), store.rows, old(removals).Keys, flushed);
      store.Note(Connect);
    }

    method Resume(run': string) returns (ok: bool, ghost restarted: bool, ghost listed: Option<seq<Window>>)
      requires Valid()
      modifies store, driver`known, driver`listings, driver`commands, this`run, this`runLoaded, this`daemonUnowned
      modifies this`clock, this`restoreUntil, this`unowned
      modifies this`lastFocused, this`prevFocused, this`deferredAdopt, this`pendingClose, this`snapshots, this`closing
      modifies this`reattachRejected
      modifies this`attached, this`ensuredFor
      ensures Valid() && Grew() && Keeps(old(store.rows), store.rows) && old(driver.commands) <= driver.commands
      ensures driver.listings == old(driver.listings) + if listed.Some? then [listed.value] else []
      ensures ok ==> listed.Some? && Aligned(store.rows, deferredAdopt, listed.value)
      ensures ok && run' != "" ==> run == run'
      ensures ok ==> (restarted <==> run' != "" && run' != old(KnownRun()))
      ensures ok && restarted ==>
                && ensuredFor == 0
                && RestartOwnersOf(old(store.rows), store.rows, listed.value, restoreWindow, old(clock), clock,
                                   restoreUntil)
                && Realigned(old(store.rows), store.rows, {}, ListedIds(listed.value), {})
      ensures ok && !restarted ==>
                && CarriedOut(old(pendingClose), listed.value, closing, driver.commands[|old(driver.commands)|..])
                && ListedStay(old(store.rows), store.rows, ListedIds(listed.value), {}, ArchivedIn(old(pendingClose)))
                && Realigned(old(store.rows), store.rows, ListedIds(listed.value), old(deferredAdopt).Keys,
                             ArchivedIn(old(pendingClose)))
      ensures listed.None? ==>
                Unlisted(old(store.rows), store.rows, run' != "" && run' != old(KnownRun()), store.reliable)
      ensures Reliable() ==> ok
    {
      var tracked, renewed := NoticeRun(run');
      restarted := renewed;
      if renewed {
        ok, listed := ResyncRenewed(old(store.rows), old(clock));
      } else {
        ghost var before := store.rows;
        ok, listed := Resync(false);
        KeepsTwice(old(store.rows), before, store.rows);
      }
      ok := ok && tracked;
    }

    method ResyncRenewed(ghost was: Table, ghost started: Time) returns (ok: bool, ghost listed: Option<seq<Window>>)
      requires Valid() && deferredAdopt == map[] && pendingClose == map[] && Owned(store.rows) == {}
      requires store.rows == MissingExcept(was, {}) && DeadlineSet(restoreWindow, started, clock, restoreUntil)
      modifies store, driver`known, driver`listings, driver`commands, this`clock, this`restoreUntil, this`unowned
      modifies this`lastFocused, this`prevFocused
      modifies this`deferredAdopt, this`pendingClose, this`snapshots, this`closing, this`reattachRejected, this`attached
      ensures Valid() && Grew() && Keeps(was, store.rows)
      ensures driver.listings == old(driver.listings) + if listed.Some? then [listed.value] else []
      ensures old(driver.commands) <= driver.commands
      ensures listed.None? ==> !ok && store.rows == old(store.rows)
      ensures ok ==> listed.Some? && Aligned(store.rows, deferredAdopt, listed.value)
      ensures ok ==> RestartOwnersOf(was, store.rows, listed.value, restoreWindow, started, clock, restoreUntil)
      ensures ok ==> Realigned(was, store.rows, {}, ListedIds(listed.value), {})
      ensures Reliable() ==> ok
    {
      ok, listed := Resync(true);
      MissingEffects(was, {});
      KeepsTwice(was, old(store.rows), store.rows);
      if ok {
        assert DeadlineSet(restoreWindow, started, clock, old(restoreUntil));
        RealignedRestart(was, old(store.rows), store.rows, ListedIds(listed.value), ListedIds(listed.value));
      }
    }

    method NoticeRun(run': string) returns (ok: bool, restarted: bool)
      requires Valid()
      modifies store, this`run, this`runLoaded, this`deferredAdopt, this`daemonUnowned, this`reattachRejected
      modifies this`pendingClose
      modifies this`ensuredFor, this`clock, this`restoreUntil
      ensures Valid() && Grew() && Keeps(old(store.rows), store.rows)
      ensures ok ==> (restarted <==> run' != "" && run' != old(KnownRun()))
      ensures ok && run' != "" ==> run == run'
      ensures restarted ==>
                && store.rows == MissingExcept(old(store.rows), {}) && Owned(store.rows) == {}
                && deferredAdopt == map[] && pendingClose == map[]
      ensures restarted ==> ensuredFor == 0 && DeadlineSet(restoreWindow, old(clock), clock, restoreUntil)
      ensures !restarted ==> deferredAdopt == old(deferredAdopt) && pendingClose == old(pendingClose)
      ensures Unlisted(old(store.rows), store.rows, run' != "" && run' != old(KnownRun()), store.reliable)
      ensures !restarted && ok ==> store.rows == old(store.rows)
      ensures store.reliable ==> ok
    {
      ok, restarted := TrackRun(run');
      MissingEffects(old(store.rows), {});
      if restarted {
        BeginRestoring();
      }
    }

    /** From now on missing rows may be matched for the restore window. */
    method BeginRestoring()
      modifies this`ensuredFor, this`clock, this`restoreUntil
      ensures ensuredFor == 0 && old(clock) <= clock
      ensures restoreUntil == if restoreWindow > 0 then clock + restoreWindow else old(restoreUntil)
    {
      ensuredFor := 0;
      if restoreWindow > 0 {
        var now := Now();
        restoreUntil := now + restoreWindow;
      }
    }

    /** The browser went away: closed windows that waited to be forgotten are
        kept as missing, and no snapshot or closing is waited for. */
    method Disconnected() returns (ok: bool)
      requires Valid()
      modifies store, this`connected, this`removals, this`snapshots, this`closing
      ensures Valid() && !connected && removals == map[] && snapshots == map[] && closing == {}
      ensures old(store.log) <= store.log && store.ledger.connection == old(store.ledger.connection) + 1
      ensures PartlyFlushed(old(store.rows), store.rows, old(removals).Keys, ok)
      ensures store.reliable ==> ok
    {
      connected := false;
      ok := FlushRemovals();
      snapshots, closing := map[], {};
      store.Note(Disconnect);
    }

    /** A window is announced as created, for the first time. */
    method WindowCreated(w: WindowId) returns (ok: bool, ghost restoring: bool)
      requires Valid() && w != "" && w !in driver.announced
      modifies store, driver`known, driver`listings, driver`announced, this`clock, this`restoreUntil, this`unowned
      modifies this`deferredAdopt
      ensures Valid() && old(store.log) <= store.log && driver.announced == old(driver.announced) + {w}
      ensures Gains(old(store.rows), store.rows, w) && deferredAdopt - {w} == old(deferredAdopt)
      ensures w in old(unowned) || w in Owned(old(store.rows)) ==>
                store.rows == old(store.rows) && deferredAdopt == old(deferredAdopt)
      ensures restoring ==> old(clock) < old(restoreUntil)
      ensures ok && w !in old(unowned) && w !in Owned(old(store.rows)) ==>
                && (clock < old(restoreUntil) && MissingRows(old(store.rows)) != {} ==> restoring)
                && |driver.listings| == |old(driver.listings)| + 1
                && AdoptedFrom(old(store.rows), store.rows, driver.listings[|old(driver.listings)|], old(Unmatchable()),
                               w, FocusBefore(w), w in deferredAdopt, restoring, clock < old(restoreUntil))
      ensures Reliable() ==> ok
    {
      driver.Announce(w);
      ok, restoring := Adopt(w);
    }

    method SetAttached(session: SessionId)
      modifies this`attached
      ensures attached == session
    {
      attached := session;
    }

    method OnAppEnd()
      requires Valid()
      modifies this`connected, this`snapshots, this`removals
      ensures Valid() && !connected && snapshots == map[] && removals == map[]
    {
      connected, snapshots, removals := false, map[], map[];
    }
  }

  /** In every reachable state a row is open exactly when it names a window, no
      two open rows name the same one, and all of them are windows the browser
      has shown. */
  lemma OneOwnerEach(s: Service)
    requires s.Valid()
    ensures WellFormed(s.store.rows) && Owned(s.store.rows) <= s.driver.known && "" !in Owned(s.store.rows)
  {
    s.store.Tidy();
  }
}
