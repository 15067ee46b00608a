/** The store of browser windows: each operation is one atomic update of the
    table that is recorded in its history, or a failure that changes nothing. */
module BrowserStore {
  import opened BrowserTypes
  import opened BrowserTabs
  import opened WindowTable

  datatype Stored = Stored(id: RowId, row: Row)

  datatype Lookup = Failed | NotFound | Found(id: RowId, row: Row)

  /** `list` holds the rows `ids` of the table, each once. */
  ghost predicate Lists(rows: Table, ids: set<RowId>, list: seq<Stored>) {
    && (forall i, j :: 0 <= i < j < |list| ==> list[i].id != list[j].id)
    && (forall i :: 0 <= i < |list| ==> list[i].id in ids && list[i].id in rows && list[i].row == rows[list[i].id])
    && (forall id :: id in ids ==> exists i :: 0 <= i < |list| && list[i].id == id)
  }

  /** Later focus first, then the higher id. */
  predicate MoreRecent(a: Stored, b: Stored) {
    a.row.focusedAt > b.row.focusedAt || (a.row.focusedAt == b.row.focusedAt && a.id >= b.id)
  }

  ghost predicate ByRecency(list: seq<Stored>) {
    forall i, j :: 0 <= i < j < |list| ==> MoreRecent(list[i], list[j])
  }

  function OpenOf(rows: Table, session: SessionId): set<RowId> {
    set id | id in rows && rows[id].session == session && rows[id].state.Open?
  }

  function RestorableOf(rows: Table, session: SessionId): set<RowId> {
    set id | id in rows && rows[id].session == session && !rows[id].state.Open?
  }

  function OpenRows(rows: Table): set<RowId> {
    set id | id in rows && rows[id].state.Open?
  }

  function MissingRows(rows: Table): set<RowId> {
    set id | id in rows && rows[id].state.Missing?
  }

  class Store {
    /** Whether no operation ever fails. */
    const reliable: bool
    var rows: Table
    var nextId: RowId
    var runId: string
    ghost var log: seq<Change>
    ghost var ledger: Ledger

    ghost predicate Valid()
      reads this
    {
      && Recounts(log, ledger)
      && rows == ledger.rows && nextId == ledger.nextId
    }

    /** The table is what a legal history led to. */
    lemma Sound()
      requires Valid()
      ensures Legal(log) && ledger == Replay(log)
    {
      RecountsLegally(log, ledger);
    }

    /** So it is well formed. */
    lemma Tidy()
      requires Valid()
      ensures WellFormed(rows) && Numbered(ledger)
    {
      RecountedIsWellFormed(log, ledger);
    }

    /** No row carries a time later than the one entered last. */
    lemma InThePast()
      requires Valid()
      ensures Dated(ledger)
    {
      RecountsLegally(log, ledger);
      AlwaysDated(log);
    }

    constructor (reliable: bool)
      ensures Valid() && log == [] && ledger == EMPTY && this.reliable == reliable
    {
      this.reliable := reliable;
      rows, nextId, runId, log, ledger := map[], 1, "", [], EMPTY;
      NothingRecounted();
    }

    /** Enters a change made under its condition into the history. */
    ghost method Record(c: Change)
      requires Recounts(log, ledger) && Permitted(ledger, c)
      requires rows == Apply(ledger, c).rows && nextId == Apply(ledger, c).nextId
      modifies this`log, this`ledger
      ensures Valid() && log == old(log) + [c] && ledger == Apply(old(ledger), c)
    {
      RecountsMore(log, ledger, c);
      log, ledger := log + [c], Apply(ledger, c);
    }

    // --- queries --------------------------------------------------------------

    method Fails() returns (fails: bool)
      ensures reliable ==> !fails
    {
      fails := *;
      fails := fails && !reliable;
    }

    method Get(id: RowId) returns (r: Lookup)
      requires Valid()
      ensures r.Found? ==> r.id == id && id in rows && r.row == rows[id]
      ensures r.NotFound? ==> id !in rows
      ensures reliable ==> !r.Failed?
    {
      var fails := Fails();
      if fails {
        return Failed;
      }
      r := if id in rows then Found(id, rows[id]) else NotFound;
    }

    method GetByWindow(w: WindowId) returns (r: Lookup)
      requires Valid()
      ensures r.Found? ==> w != "" && r.id in rows && r.row == rows[r.id] && Holds(r.row, w)
      ensures r.NotFound? ==> w !in Owned(rows)
      ensures reliable ==> !r.Failed?
    {
      Tidy();
      if w == "" {
        return NotFound;
      }
      var fails := Fails();
      if fails {
        return Failed;
      }
      if id: RowId :| id in rows && Holds(rows[id], w) {
        r := Found(id, rows[id]);
      } else {
        r := NotFound;
      }
    }

    method MostRecent(ids: set<RowId>) returns (s: Stored)
      requires ids != {} && ids <= rows.Keys
      ensures s.id in ids && s.row == rows[s.id]
      ensures forall id :: id in ids ==> MoreRecent(s, Stored(id, rows[id]))
    {
      var id :| id in ids;
      s := Stored(id, rows[id]);
      var rest := ids - {id};
      while rest != {}
        invariant rest <= ids && s.id in ids && s.row == rows[s.id]
        invariant forall j :: j in ids && j !in rest ==> MoreRecent(s, Stored(j, rows[j]))
        decreases |rest|
      {
        var j :| j in rest;
        rest := rest - {j};
        if MoreRecent(Stored(j, rows[j]), s) {
          s := Stored(j, rows[j]);
        }
      }
    }

    method Enumerate(ids: set<RowId>) returns (list: seq<Stored>)
      requires ids <= rows.Keys
      ensures Lists(rows, ids, list) && ByRecency(list)
    {
      list := [];
      var rest := ids;
      while rest != {}
        invariant Enumerating(rows, ids, rest, list)
        decreases |rest|
      {
        var s := MostRecent(rest);
        EnumerateOne(rows, ids, rest, list, s);
        rest, list := rest - {s.id}, list + [s];
      }
      assert ids - rest == ids;
    }

    method ListOpenBySession(session: SessionId) returns (list: Option<seq<Stored>>)
      ensures list.Some? ==> Lists(rows, OpenOf(rows, session), list.value) && ByRecency(list.value)
      ensures reliable ==> list.Some?
    {
      list := ListRows(OpenOf(rows, session));
    }

    method ListRestorable(session: SessionId) returns (list: Option<seq<Stored>>)
      ensures list.Some? ==> Lists(rows, RestorableOf(rows, session), list.value) && ByRecency(list.value)
      ensures reliable ==> list.Some?
    {
      list := ListRows(RestorableOf(rows, session));
    }

    method ListOpen() returns (list: Option<seq<Stored>>)
      ensures list.Some? ==> Lists(rows, OpenRows(rows), list.value)
      ensures reliable ==> list.Some?
    {
      list := ListRows(OpenRows(rows));
    }

    method ListMissing() returns (list: Option<seq<Stored>>)
      ensures list.Some? ==> Lists(rows, MissingRows(rows), list.value)
      ensures reliable ==> list.Some?
    {
      list := ListRows(MissingRows(rows));
    }

    method ListRows(ids: set<RowId>) returns (list: Option<seq<Stored>>)
      requires ids <= rows.Keys
      ensures list.Some? ==> Lists(rows, ids, list.value) && ByRecency(list.value)
      ensures reliable ==> list.Some?
    {
      var fails := Fails();
      if fails {
        return None;
      }
      var all := Enumerate(ids);
      list := Some(all);
    }

    method OwnedWindows() returns (owned: Option<set<WindowId>>)
      ensures owned.Some? ==> owned.value == Owned(rows)
      ensures reliable ==> owned.Some?
    {
      var fails := Fails();
      owned := if fails then None else Some(Owned(rows));
    }

    method RunId() returns (run: Option<string>)
      ensures run.Some? ==> run.value == runId
      ensures reliable ==> run.Some?
    {
      var fails := Fails();
      run := if fails then None else Some(runId);
    }

    // --- updates --------------------------------------------------------------

    /** The one change made since was `c`. */
    twostate predicate Recorded(c: Change)
      reads this
    {
      log == old(log) + [c] && ledger == Apply(old(ledger), c)
    }

    /** Nothing was changed since. */
    twostate predicate Untouched()
      reads this
    {
      log == old(log) && ledger == old(ledger)
    }

    method Commit(after: Table, ghost c: Change) returns (ok: bool)
      requires Valid() && Permitted(ledger, c) && !c.Added? && after == Apply(ledger, c).rows
      modifies this`rows, this`log, this`ledger
      ensures Valid() && if ok then Recorded(c) else Untouched()
      ensures reliable ==> ok
    {
      var fails := Fails();
      if fails {
        return false;
      }
      rows := after;
      Record(c);
      ok := true;
    }

    method Add(row: Row) returns (ok: bool)
      requires Valid() && Permitted(ledger, Added(row))
      modifies this`rows, this`nextId, this`log, this`ledger
      ensures Valid() && if ok then Recorded(Added(row)) else Untouched()
      ensures reliable ==> ok
    {
      var fails := Fails();
      if fails {
        return false;
      }
      rows, nextId := rows[nextId := row], nextId + 1;
      Record(Added(row));
      ok := true;
    }

    method Reopen(id: RowId, w: WindowId, at: Time) returns (ok: bool)
      requires Valid() && (w != "" ==> Permitted(ledger, Reopened(id, w, at)))
      modifies this`rows, this`log, this`ledger
      ensures Valid() && if ok && w != "" then Recorded(Reopened(id, w, at)) else Untouched()
      ensures reliable ==> ok
    {
      if w == "" {
        return true;
      }
      ok := Commit(WithReopened(rows, id, w, at), Reopened(id, w, at));
    }

    method MarkMissingExcept(live: set<WindowId>) returns (ok: bool)
      requires Valid()
      modifies this`rows, this`log, this`ledger
      ensures Valid() && if ok then Recorded(LeftOut(live)) else Untouched()
      ensures reliable ==> ok
    {
      ok := Commit(MissingExcept(rows, live), LeftOut(live));
    }

    method MarkMissing(w: WindowId) returns (ok: bool)
      requires Valid()
      modifies this`rows, this`log, this`ledger
      ensures Valid() && if ok then Recorded(Lost(w)) else Untouched()
      ensures reliable ==> ok
    {
      ok := Commit(MissingWindow(rows, w), Lost(w));
    }

    method MarkSnapshotted(id: RowId, tabs: seq<SavedTab>, at: Time, ghost from: Option<Window>) returns (ok: bool)
      requires Valid() && Permitted(ledger, Snapshot(id, from, at)) && tabs == TabsFrom(rows, id, from)
      modifies this`rows, this`log, this`ledger
      ensures Valid() && if ok then Recorded(Snapshot(id, from, at)) else Untouched()
      ensures reliable ==> ok
    {
      ok := Commit(WithSnapshot(rows, id, tabs, at), Snapshot(id, from, at));
    }

    /** Saves the tabs of a window to the row that owns it. */
    method SaveTabs(w: WindowId, tabs: seq<SavedTab>, at: Time, ghost live: Window) returns (ok: bool)
      requires Valid() && Savable(live) && live.id == w != "" && Shown(ledger.listings, live) && ledger.time <= at
      requires forall id :: id in rows && Holds(rows[id], w) ==> tabs == Merged(live, rows[id].tabs)
      modifies this`rows, this`log, this`ledger
      ensures Valid() && if ok then Recorded(Saved(live, at)) else Untouched()
      ensures reliable ==> ok
    {
      var after := map id | id in rows ::
        if Holds(rows[id], w) then rows[id].(tabs := tabs, snapshotAt := at) else rows[id];
      ok := Commit(after, Saved(live, at));
    }

    method SetTabs(id: RowId, tabs: seq<SavedTab>, ghost c: Change) returns (ok: bool)
      requires Valid() && (c.Loaded? || c.Held?) && c.id == id && Permitted(ledger, c)
      requires Apply(ledger, c).rows == WithTabs(rows, id, tabs)
      modifies this`rows, this`log, this`ledger
      ensures Valid() && if ok then Recorded(c) else Untouched()
      ensures reliable ==> ok
    {
      ok := Commit(WithTabs(rows, id, tabs), c);
    }

    method TouchFocused(w: WindowId, at: Time) returns (ok: bool)
      requires Valid() && ledger.time <= at
      modifies this`rows, this`log, this`ledger
      ensures Valid() && if ok then Recorded(Focused(w, at)) else Untouched()
      ensures reliable ==> ok
    {
      ok := Commit(WithFocus(rows, w, at), Focused(w, at));
    }

    method DeleteByWindow(w: WindowId) returns (ok: bool)
      requires Valid() && Permitted(ledger, Forgot(w))
      modifies this`rows, this`log, this`ledger
      ensures Valid() && if ok then Recorded(Forgot(w)) else Untouched()
      ensures reliable ==> ok
    {
      ok := Commit(WithoutWindow(rows, w), Forgot(w));
    }

    method Delete(id: RowId, ghost c: Change) returns (ok: bool)
      requires Valid() && (c == Ejected(id) || c == Emptied(id)) && Permitted(ledger, c)
      modifies this`rows, this`log, this`ledger
      ensures Valid() && if ok then Recorded(c) else Untouched()
      ensures reliable ==> ok
    {
      ok := Commit(rows - {id}, c);
    }

    method DeleteBySession(session: SessionId) returns (ok: bool)
      requires Valid()
      modifies this`rows, this`log, this`ledger
      ensures Valid() && if ok then Recorded(SessionDeleted(session)) else Untouched()
      ensures reliable ==> ok
    {
      ok := Commit(WithoutSession(rows, session), SessionDeleted(session));
    }

    method SetRunId(run: string) returns (ok: bool)
      modifies this`runId
      ensures runId == if ok then run else old(runId)
      ensures reliable ==> ok
    {
      var fails := Fails();
      if fails {
        return false;
      }
      runId := run;
      ok := true;
    }

    /** Enters something that happened around the table. */
    ghost method Note(c: Change)
      requires Valid() && (ChangesConnection(c) || c.Closed? || c.CloseNoted? || c.TabOpened? || c.Listed?)
      requires Permitted(ledger, c)
      modifies this`log, this`ledger
      ensures Valid() && Recorded(c)
    {
      Record(c);
    }
  }

  /** The rows `ids` without `rest` are listed, none after one of `rest`. */
  ghost predicate Enumerating(rows: Table, ids: set<RowId>, rest: set<RowId>, list: seq<Stored>) {
    && rest <= ids <= rows.Keys && Lists(rows, ids - rest, list) && ByRecency(list)
    && forall i, j :: 0 <= i < |list| && j in rest ==> MoreRecent(list[i], Stored(j, rows[j]))
  }

  lemma EnumerateOne(rows: Table, ids: set<RowId>, rest: set<RowId>, list: seq<Stored>, s: Stored)
    requires Enumerating(rows, ids, rest, list)
    requires s.id in rest && s.row == rows[s.id] && forall id :: id in rest ==> MoreRecent(s, Stored(id, rows[id]))
    ensures Enumerating(rows, ids, rest - {s.id}, list + [s])
  {
    assert s == Stored(s.id, rows[s.id]);
    ListsMore(rows, ids - rest, list, s);
    assert ids - rest + {s.id} == ids - (rest - {s.id});
  }

  lemma ListsMore(rows: Table, taken: set<RowId>, list: seq<Stored>, s: Stored)
    requires Lists(rows, taken, list) && s.id !in taken && s.id in rows && s.row == rows[s.id]
    ensures Lists(rows, taken + {s.id}, list + [s])
  {
    forall id | id in taken + {s.id} ensures exists i :: 0 <= i < |list + [s]| && (list + [s])[i].id == id {
      if id == s.id {
        assert (list + [s])[|list|].id == id;
      } else {
        var i :| 0 <= i < |list| && list[i].id == id;
        assert (list + [s])[i].id == id;
      }
    }
  }
}
