/** The table of browser windows: its row updates, and the history of changes
    with the condition each one was made under. */
module WindowTable {
  import opened BrowserTypes
  import opened BrowserTabs

  type Table = map<RowId, Row>

  // --- row updates -------------------------------------------------------------

  predicate Holds(row: Row, w: WindowId) {
    row.state.Open? && row.window == w
  }

  /** A row is open exactly when it names a window, and no two open rows name
      the same one. */
  ghost predicate WellFormed(rows: Table) {
    && (forall id :: id in rows ==> (rows[id].state.Open? <==> rows[id].window != ""))
    && (forall id, j :: id in rows && j in rows && rows[id].state.Open? && rows[j].state.Open? ==>
          rows[id].window == rows[j].window ==> id == j)
  }

  /** The windows that belong to a row. */
  function Owned(rows: Table): set<WindowId> {
    set id | id in rows && rows[id].state.Open? :: rows[id].window
  }

  function Missed(row: Row): Row {
    row.(state := Missing, window := "")
  }

  function MissingExcept(rows: Table, live: set<WindowId>): Table {
    map id | id in rows :: if rows[id].state.Open? && rows[id].window !in live then Missed(rows[id]) else rows[id]
  }

  function MissingWindow(rows: Table, w: WindowId): Table {
    map id | id in rows :: if w != "" && Holds(rows[id], w) then Missed(rows[id]) else rows[id]
  }

  function WithReopened(rows: Table, id: RowId, w: WindowId, at: Time): Table {
    if id in rows && w != "" then rows[id := rows[id].(state := Open, window := w, focusedAt := at)] else rows
  }

  function WithSnapshot(rows: Table, id: RowId, tabs: seq<SavedTab>, at: Time): Table {
    if id in rows then rows[id := rows[id].(state := Snapshotted, window := "", tabs := tabs, snapshotAt := at)]
    else rows
  }

  function WithSaved(rows: Table, w: Window, at: Time): Table {
    map id | id in rows ::
      if w.id != "" && Holds(rows[id], w.id) then rows[id].(tabs := Merged(w, rows[id].tabs), snapshotAt := at)
      else rows[id]
  }

  function WithTabs(rows: Table, id: RowId, tabs: seq<SavedTab>): Table {
    if id in rows then rows[id := rows[id].(tabs := tabs)] else rows
  }

  function WithFocus(rows: Table, w: WindowId, at: Time): Table {
    map id | id in rows :: if w != "" && Holds(rows[id], w) then rows[id].(focusedAt := at) else rows[id]
  }

  function WithoutWindow(rows: Table, w: WindowId): Table {
    map id | id in rows && (w == "" || !Holds(rows[id], w)) :: rows[id]
  }

  function WithoutSession(rows: Table, session: SessionId): Table {
    map id | id in rows && rows[id].session != session :: rows[id]
  }

  // --- loading pending tabs ----------------------------------------------------

  /** The tabs once those marked in `loaded` are no longer pending. */
  function Released(tabs: seq<SavedTab>, loaded: seq<bool>): seq<SavedTab>
    requires |loaded| == |tabs|
  {
    if tabs == [] then []
    else
      var n := |tabs| - 1;
      Released(tabs[..n], loaded[..n]) + [if loaded[n] then tabs[n].(pending := false) else tabs[n]]
  }

  lemma {:induction false} ReleasedLength(tabs: seq<SavedTab>, loaded: seq<bool>)
    requires |loaded| == |tabs|
    ensures |Released(tabs, loaded)| == |tabs|
  {
    if tabs != [] {
      ReleasedLength(tabs[..|tabs| - 1], loaded[..|tabs| - 1]);
    }
  }

  /** The tabs that had to be opened in window `w` for that. */
  function Openings(w: WindowId, tabs: seq<SavedTab>, loaded: seq<bool>): seq<(WindowId, Url)>
    requires |loaded| == |tabs|
  {
    if tabs == [] then []
    else
      var n := |tabs| - 1;
      Openings(w, tabs[..n], loaded[..n]) + if loaded[n] then [(w, tabs[n].url)] else []
  }

  // --- the history -------------------------------------------------------------

  /** `Connect`, `Disconnect`, `Closed` (the removal of a closed window was
      scheduled), `CloseNoted` (the window of a row is to be closed when the
      browser is back), `TabOpened` and `Listed` (the browser listed its
      windows) happen around the table; the others change it. Rows leave it by
      `Forgot` (a removal timer fired), `Ejected`, `Emptied` (a restore found
      nothing to show) and `SessionDeleted`. */
  datatype Change =
    | Connect
    | Disconnect
    | Closed(window: WindowId)
    | CloseNoted(window: WindowId, id: RowId)
    | Listed(windows: seq<Window>)
    | TabOpened(window: WindowId, url: Url)
    | Added(row: Row)
    | Reopened(id: RowId, window: WindowId, at: Time)
    | LeftOut(listed: set<WindowId>)
    | Lost(window: WindowId)
    | Snapshot(id: RowId, from: Option<Window>, at: Time)
    | Saved(live: Window, at: Time)
    | Loaded(id: RowId, loaded: seq<bool>, since: nat)
    | Held(id: RowId, tab: SavedTab)
    | Focused(window: WindowId, at: Time)
    | Forgot(window: WindowId)
    | Ejected(id: RowId)
    | Emptied(id: RowId)
    | SessionDeleted(session: SessionId)

  /** The table with what its history must remember: which connection this is,
      in which one each window was last closed, from which row a window to
      close was taken, every tab opened, every listing and the time entered
      last. */
  datatype Ledger = Ledger(rows: Table, nextId: RowId, connection: nat, closedIn: map<WindowId, nat>,
                           toClose: map<WindowId, RowId>, openings: seq<(WindowId, Url)>, listings: seq<seq<Window>>,
                           time: Time)

  const EMPTY := Ledger(map[], 1, 0, map[], map[], [], [], 0)

  /** The browser's latest listing shows this window. */
  predicate Shown(listings: seq<seq<Window>>, w: Window) {
    listings != [] && w in listings[|listings| - 1]
  }

  /** Window `w` is the row's own, or the one it was archived from while the
      browser was away. */
  predicate BelongsTo(l: Ledger, w: WindowId, id: RowId)
    requires id in l.rows
  {
    Holds(l.rows[id], w) || (w in l.toClose && l.toClose[w] == id)
  }

  predicate ChangesConnection(c: Change) {
    c.Connect? || c.Disconnect?
  }

  function TabsFrom(rows: Table, id: RowId, from: Option<Window>): seq<SavedTab>
    requires id in rows
  {
    if from.Some? then Merged(from.value, rows[id].tabs) else rows[id].tabs
  }

  function Later(a: Time, b: Time): Time {
    if a < b then b else a
  }

  /** The condition a change is made under: among others, a time entered is not
      before the last one, unless it is the one the row already has. */
  ghost predicate Permitted(l: Ledger, c: Change) {
    match c
    case Added(row) =>
      && l.time <= row.focusedAt && row.snapshotAt <= row.focusedAt
      && if row.state.Open? then row.window != "" && row.window !in Owned(l.rows) else row.window == ""
    case Reopened(id, w, at) =>
      && w != "" && (l.time <= at || (id in l.rows && at == l.rows[id].focusedAt))
      && forall j :: j in l.rows && Holds(l.rows[j], w) ==> j == id
    case CloseNoted(w, id) => id in l.rows && Holds(l.rows[id], w)
    case Snapshot(id, from, at) =>
      && id in l.rows && (if from.Some? then l.time <= at else at == l.rows[id].snapshotAt)
      && (from.Some? ==> Savable(from.value) && Shown(l.listings, from.value) && BelongsTo(l, from.value.id, id))
    case Saved(live, at) => Savable(live) && Shown(l.listings, live) && l.time <= at
    case Loaded(id, loaded, since) =>
      && id in l.rows && l.rows[id].state.Open? && |loaded| == |l.rows[id].tabs| && since <= |l.openings|
      && l.openings[since..] == Openings(l.rows[id].window, l.rows[id].tabs, loaded)
    case Held(id, tab) => id in l.rows && tab.pending
    case Focused(w, at) => l.time <= at
    case Forgot(w) => w in l.closedIn && l.closedIn[w] == l.connection
    case Emptied(id) => id in l.rows ==> l.rows[id].tabs == []
    case _ => true
  }

  function Apply(l: Ledger, c: Change): Ledger {
    match c
    case Connect => l.(connection := l.connection + 1)
    case Disconnect => l.(connection := l.connection + 1)
    case Closed(w) => l.(closedIn := l.closedIn[w := l.connection])
    case CloseNoted(w, id) => l.(toClose := l.toClose[w := id])
    case Listed(windows) => l.(listings := l.listings + [windows])
    case TabOpened(w, url) => l.(openings := l.openings + [(w, url)])
    case Added(row) => l.(rows := l.rows[l.nextId := row], nextId := l.nextId + 1, time := row.focusedAt)
    case Reopened(id, w, at) => l.(rows := WithReopened(l.rows, id, w, at), time := Later(l.time, at))
    case LeftOut(listed) => l.(rows := MissingExcept(l.rows, listed))
    case Lost(w) => l.(rows := MissingWindow(l.rows, w))
    case Snapshot(id, from, at) =>
      if id in l.rows then
        l.(rows := WithSnapshot(l.rows, id, TabsFrom(l.rows, id, from), at), time := Later(l.time, at))
      else l
    case Saved(live, at) => l.(rows := WithSaved(l.rows, live, at), time := at)
    case Loaded(id, loaded, since) =>
      if id in l.rows && |loaded| == |l.rows[id].tabs| then
        l.(rows := WithTabs(l.rows, id, Released(l.rows[id].tabs, loaded)))
      else l
    case Held(id, tab) => if id in l.rows then l.(rows := WithTabs(l.rows, id, l.rows[id].tabs + [tab])) else l
    case Focused(w, at) => l.(rows := WithFocus(l.rows, w, at), time := at)
    case Forgot(w) => l.(rows := WithoutWindow(l.rows, w))
    case Ejected(id) => l.(rows := l.rows - {id})
    case Emptied(id) => l.(rows := l.rows - {id})
    case SessionDeleted(session) => l.(rows := WithoutSession(l.rows, session))
  }

  function Replay(log: seq<Change>): Ledger {
    if log == [] then EMPTY else Apply(Replay(log[..|log| - 1]), log[|log| - 1])
  }

  /** Every change was made under its condition. */
  ghost predicate Legal(log: seq<Change>) {
    log == [] || (Legal(log[..|log| - 1]) && Permitted(Replay(log[..|log| - 1]), log[|log| - 1]))
  }

  lemma LegalStep(log: seq<Change>, c: Change)
    requires Legal(log) && Permitted(Replay(log), c)
    ensures Legal(log + [c]) && Replay(log + [c]) == Apply(Replay(log), c)
  {
    assert (log + [c])[..|log|] == log;
  }

  /** Row ids are handed out once: the next one is above all in use. */
  ghost predicate Numbered(l: Ledger) {
    forall id :: id in l.rows ==> id < l.nextId
  }

  /** No row appears and none takes a window it did not have. */
  ghost predicate OnlyReleases(rows: Table, rows': Table) {
    forall id :: id in rows' ==>
      && id in rows
      && ((rows'[id].state == rows[id].state && rows'[id].window == rows[id].window)
          || (!rows'[id].state.Open? && rows'[id].window == ""))
  }

  lemma ReleasesKeepWellFormed(rows: Table, rows': Table)
    requires WellFormed(rows) && OnlyReleases(rows, rows')
    ensures WellFormed(rows')
  {
  }

  lemma MostChangesOnlyRelease(l: Ledger, c: Change)
    requires !c.Added? && !c.Reopened?
    ensures OnlyReleases(l.rows, Apply(l, c).rows) && Apply(l, c).nextId == l.nextId
  {
  }

  lemma AddedKeepsWellFormed(rows: Table, id: RowId, row: Row)
    requires WellFormed(rows) && id !in rows
    requires if row.state.Open? then row.window != "" && row.window !in Owned(rows) else row.window == ""
    ensures WellFormed(rows[id := row])
  {
  }

  /** An open row may be added exactly for a window nobody owns: a window
      adopted twice would be owned twice. */
  lemma AddedIff(rows: Table, id: RowId, row: Row)
    requires WellFormed(rows) && id !in rows && row.state.Open?
    ensures WellFormed(rows[id := row]) <==> row.window != "" && row.window !in Owned(rows)
  {
    var rows' := rows[id := row];
    if row.window in Owned(rows) {
      var j :| j in rows && rows[j].state.Open? && rows[j].window == row.window;
      assert rows'[j].window == rows'[id].window && rows'[id] == row;
    } else if row.window != "" {
      AddedKeepsWellFormed(rows, id, row);
    } else {
      assert rows'[id] == row;
    }
  }

  lemma ReopenedKeepsWellFormed(rows: Table, id: RowId, w: WindowId, at: Time)
    requires WellFormed(rows) && w != "" && forall j :: j in rows && Holds(rows[j], w) ==> j == id
    ensures WellFormed(WithReopened(rows, id, w, at))
  {
  }

  /** Every change keeps the table well formed. */
  lemma ChangeKeepsWellFormed(l: Ledger, c: Change)
    requires WellFormed(l.rows) && Numbered(l) && Permitted(l, c)
    ensures WellFormed(Apply(l, c).rows) && Numbered(Apply(l, c))
  {
    match c
    case Added(row) => AddedKeepsWellFormed(l.rows, l.nextId, row);
    case Reopened(id, w, at) => ReopenedKeepsWellFormed(l.rows, id, w, at);
    case _ =>
      MostChangesOnlyRelease(l, c);
      ReleasesKeepWellFormed(l.rows, Apply(l, c).rows);
  }

  /** At every point of every history the table is well formed. */
  lemma {:induction false} AlwaysWellFormed(log: seq<Change>)
    requires Legal(log)
    ensures WellFormed(Replay(log).rows) && Numbered(Replay(log))
  {
    if log != [] {
      AlwaysWellFormed(log[..|log| - 1]);
      ChangeKeepsWellFormed(Replay(log[..|log| - 1]), log[|log| - 1]);
    }
  }

  /** No row carries a time later than the one entered last. */
  ghost predicate Dated(l: Ledger) {
    forall id :: id in l.rows ==> DatedRow(l, id)
  }

  lemma ChangeKeepsDated(l: Ledger, c: Change)
    requires Dated(l) && Permitted(l, c)
    ensures Dated(Apply(l, c)) && l.time <= Apply(l, c).time
  {
    TimeGrows(l, c);
    forall id | id in Apply(l, c).rows ensures DatedRow(Apply(l, c), id) {
      RowStaysDated(l, c, id);
    }
  }

  predicate DatedRow(l: Ledger, id: RowId)
    requires id in l.rows
  {
    l.rows[id].focusedAt <= l.time && l.rows[id].snapshotAt <= l.time
  }

  lemma TimeGrows(l: Ledger, c: Change)
    requires Permitted(l, c)
    ensures l.time <= Apply(l, c).time
  {
  }

  lemma RowStaysDated(l: Ledger, c: Change, id: RowId)
    requires Permitted(l, c) && id in Apply(l, c).rows && (id in l.rows ==> DatedRow(l, id))
    ensures DatedRow(Apply(l, c), id)
  {
  }

  lemma {:induction false} AlwaysDated(log: seq<Change>)
    requires Legal(log)
    ensures Dated(Replay(log))
  {
    if log != [] {
      AlwaysDated(log[..|log| - 1]);
      ChangeKeepsDated(Replay(log[..|log| - 1]), log[|log| - 1]);
    }
  }

  /** Change `i` led from one ledger to the next under its condition. */
  ghost predicate LedTo(ledgers: seq<Ledger>, log: seq<Change>, i: nat) {
    i < |log| && |ledgers| == |log| + 1 && Permitted(ledgers[i], log[i]) && ledgers[i + 1] == Apply(ledgers[i], log[i])
  }

  /** The ledgers the history went through, up to this one. */
  ghost predicate WentThrough(log: seq<Change>, ledger: Ledger, ledgers: seq<Ledger>) {
    && |ledgers| == |log| + 1 && ledgers[0] == EMPTY && ledgers[|log|] == ledger
    && forall i: nat :: i < |log| ==> LedTo(ledgers, log, i)
  }

  /** The history recounts, legally, how the ledger came about. */
  ghost predicate Recounts(log: seq<Change>, ledger: Ledger) {
    exists ledgers :: WentThrough(log, ledger, ledgers)
  }

  lemma NothingRecounted()
    ensures Recounts([], EMPTY)
  {
    assert WentThrough([], EMPTY, [EMPTY]);
  }

  lemma RecountsMore(log: seq<Change>, ledger: Ledger, c: Change)
    requires Recounts(log, ledger) && Permitted(ledger, c)
    ensures Recounts(log + [c], Apply(ledger, c))
  {
    var ledgers :| WentThrough(log, ledger, ledgers);
    var more := ledgers + [Apply(ledger, c)];
    forall i: nat | i < |log + [c]| ensures LedTo(more, log + [c], i) {
      if i < |log| {
        assert LedTo(ledgers, log, i);
      }
    }
    assert WentThrough(log + [c], Apply(ledger, c), more);
  }

  lemma {:induction false} RecountsLegally(log: seq<Change>, ledger: Ledger)
    requires Recounts(log, ledger)
    ensures Legal(log) && Replay(log) == ledger
  {
    var ledgers :| WentThrough(log, ledger, ledgers);
    if log != [] {
      var n := |log| - 1;
      var before := ledgers[..n + 1];
      assert LedTo(ledgers, log, n);
      forall i: nat | i < n ensures LedTo(before, log[..n], i) {
        assert LedTo(ledgers, log, i);
      }
      assert WentThrough(log[..n], ledgers[n], before);
      RecountsLegally(log[..n], ledgers[n]);
    }
  }

  lemma RecountedIsWellFormed(log: seq<Change>, ledger: Ledger)
    requires Recounts(log, ledger)
    ensures WellFormed(ledger.rows) && Numbered(ledger)
  {
    RecountsLegally(log, ledger);
    AlwaysWellFormed(log);
  }

  // --- what a step leaves alone --------------------------------------------------

  /** Every open row stays open, in the same window and session. */
  ghost predicate StillOpen(rows: Table, rows': Table) {
    forall id :: id in rows && rows[id].state.Open? ==>
      && id in rows' && rows'[id].state.Open? && rows'[id].window == rows[id].window
      && rows'[id].session == rows[id].session
  }

  /** Every row with saved tabs stays, with its session and some saved tabs. */
  ghost predicate Keeps(rows: Table, rows': Table) {
    forall id :: id in rows && rows[id].tabs != [] ==>
      id in rows' && rows'[id].tabs != [] && rows'[id].session == rows[id].session
  }

  /** Window `w` belongs to a row of the session. */
  ghost predicate OwnedBy(rows: Table, w: WindowId, session: SessionId) {
    exists id :: id in rows && Holds(rows[id], w) && rows[id].session == session
  }

  /** At most tabs of open rows were saved: no row came, went or changed owner,
      a row that is not open did not change at all, and an open one changed its
      tabs and the time of its last snapshot only. */
  ghost predicate Resaved(rows: Table, rows': Table) {
    && rows'.Keys == rows.Keys && Owned(rows') == Owned(rows) && StillOpen(rows, rows') && Keeps(rows, rows')
    && (forall id :: id in rows && !rows[id].state.Open? ==> rows'[id] == rows[id])
    && forall id :: id in rows ==> OnlyTabsDiffer(rows[id], rows'[id])
  }

  predicate OnlyTabsDiffer(row: Row, row': Row) {
    row' == row.(tabs := row'.tabs, snapshotAt := row'.snapshotAt)
  }

  /** At most the row that owns `w` changed: its tabs, the times of its last
      snapshot and of its last focus. */
  ghost predicate Refocused(rows: Table, rows': Table, w: WindowId) {
    && rows'.Keys == rows.Keys && Owned(rows') == Owned(rows) && StillOpen(rows, rows') && Keeps(rows, rows')
    && forall id :: id in rows ==>
         if Holds(rows[id], w) then OnlyTabsDiffer(rows[id].(focusedAt := rows'[id].focusedAt), rows'[id])
         else rows'[id] == rows[id]
  }

  /** The row that owns `w` was focused between the two times. */
  ghost predicate FocusedBetween(rows: Table, w: WindowId, since: Time, until: Time) {
    forall id :: id in rows && Holds(rows[id], w) ==> since <= rows[id].focusedAt <= until
  }

  lemma ResavedTwice(a: Table, b: Table, c: Table)
    requires Resaved(a, b) && Resaved(b, c)
    ensures Resaved(a, c)
  {
  }

  lemma SavedEffects(rows: Table, w: Window, at: Time)
    requires Savable(w)
    ensures Resaved(rows, WithSaved(rows, w, at))
    ensures w.id !in Owned(rows) ==> WithSaved(rows, w, at) == rows
  {
    var rows' := WithSaved(rows, w, at);
    assert forall id :: id in rows ==> rows'[id].window == rows[id].window && rows'[id].state == rows[id].state;
  }

  lemma ReopenedEffects(rows: Table, id: RowId, w: WindowId, at: Time)
    requires id in rows && !rows[id].state.Open? && w != ""
    ensures var rows' := WithReopened(rows, id, w, at);
            && Owned(rows') == Owned(rows) + {w} && StillOpen(rows, rows') && Keeps(rows, rows')
            && OwnedBy(rows', w, rows[id].session)
  {
    var rows' := WithReopened(rows, id, w, at);
    assert Holds(rows'[id], w);
    forall v | v in Owned(rows) + {w} ensures v in Owned(rows') {
      if v in Owned(rows) {
        var j :| j in rows && rows[j].state.Open? && rows[j].window == v;
        assert rows'[j] == rows[j];
      }
    }
  }

  lemma AddedEffects(rows: Table, id: RowId, row: Row)
    requires id !in rows && row.state.Open?
    ensures var rows' := rows[id := row];
            && Owned(rows') == Owned(rows) + {row.window} && StillOpen(rows, rows')
            && Keeps(rows, rows') && OwnedBy(rows', row.window, row.session)
  {
    var rows' := rows[id := row];
    assert Holds(rows'[id], row.window);
    forall v | v in Owned(rows) + {row.window} ensures v in Owned(rows') {
      if v in Owned(rows) {
        var j :| j in rows && rows[j].state.Open? && rows[j].window == v;
        assert rows'[j] == rows[j];
      }
    }
  }

  lemma ReleaseEffects(rows: Table, rows': Table)
    requires OnlyReleases(rows, rows')
    ensures Owned(rows') <= Owned(rows)
  {
    assert forall id :: id in rows' && rows'[id].state.Open? ==>
             id in rows && rows[id].state.Open? ==> rows[id].window == rows'[id].window;
  }
}
