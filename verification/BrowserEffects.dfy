/** What a step of the browser service may do to the table, and how such
    effects add up. */
module BrowserEffects {
  import opened BrowserTypes
  import opened BrowserTabs
  import opened WindowTable
  import opened BrowserStore
  import opened BrowserDriver
  import Reattach
  import ReattachTheory

  datatype PendingClose = PendingClose(row: RowId, deleted: bool)

  /** The ids listed last are known. */
  predicate LatestKnown(listings: seq<seq<Window>>, known: set<WindowId>) {
    listings != [] ==> ListedIds(listings[|listings| - 1]) <= known
  }

  /** Windows that wait to be adopted were announced and have no owner. */
  predicate OwnerlessWait(deferred: map<WindowId, SessionId>, announced: set<WindowId>, owned: set<WindowId>) {
    forall w :: w in deferred ==> w != "" && w in announced && w !in owned
  }

  /** Windows that wait to be forgotten were closed in this connection. */
  predicate RemovalsCurrent(removals: map<WindowId, nat>, closedIn: map<WindowId, nat>, connection: nat) {
    forall w :: w in removals ==> w in closedIn && closedIn[w] == connection
  }

  /** Windows to close after a last snapshot were taken from their rows. */
  predicate TakenFromRows(pending: map<WindowId, PendingClose>, toClose: map<WindowId, RowId>) {
    forall w :: w in pending && !pending[w].deleted ==> w in toClose && toClose[w] == pending[w].row
  }

  /** The first listed window with that id. */
  function FirstListed(windows: seq<Window>, id: WindowId): (w: Option<Window>)
    ensures w.Some? <==> id in ListedIds(windows)
    ensures w.Some? ==> w.value in windows && w.value.id == id
  {
    if windows == [] then None
    else if windows[0].id == id then Some(windows[0])
    else
      assert ListedIds(windows) == {windows[0].id} + ListedIds(windows[1..]) by { TailListed(windows); }
      FirstListed(windows[1..], id)
  }

  lemma TailListed(windows: seq<Window>)
    requires windows != []
    ensures ListedIds(windows) == {windows[0].id} + ListedIds(windows[1..])
  {
    var t := windows[1..];
    forall i | 0 <= i < |windows| ensures windows[i].id in {windows[0].id} + ListedIds(t) {
      if i > 0 {
        assert t[i - 1] == windows[i];
      }
    }
  }

  method FindWindow(windows: seq<Window>, id: WindowId) returns (w: Option<Window>)
    ensures w == FirstListed(windows, id)
  {
    for i := 0 to |windows|
      invariant FirstListed(windows, id) == FirstListed(windows[i..], id)
    {
      if windows[i].id == id {
        return Some(windows[i]);
      }
    }
    w := None;
  }

  /** The last listed window with that id. */
  function LastListed(windows: seq<Window>, id: WindowId): (w: Option<Window>)
    ensures w.Some? <==> id in ListedIds(windows)
    ensures w.Some? ==> w.value in windows && w.value.id == id
  {
    if windows == [] then None
    else if windows[|windows| - 1].id == id then Some(windows[|windows| - 1])
    else
      assert ListedIds(windows) ==
             ListedIds(windows[..|windows| - 1]) + {windows[|windows| - 1].id} by { InitListed(windows); }
      LastListed(windows[..|windows| - 1], id)
  }

  lemma InitListed(windows: seq<Window>)
    requires windows != []
    ensures ListedIds(windows) == ListedIds(windows[..|windows| - 1]) + {windows[|windows| - 1].id}
  {
    var t := windows[..|windows| - 1];
    forall i | 0 <= i < |windows| ensures windows[i].id in ListedIds(t) + {windows[|windows| - 1].id} {
      if i < |t| {
        assert t[i] == windows[i];
      }
    }
  }

  method FindLast(windows: seq<Window>, id: WindowId) returns (w: Option<Window>)
    ensures w == LastListed(windows, id)
  {
    w := None;
    for i := 0 to |windows|
      invariant w == LastListed(windows[..i], id)
    {
      assert windows[..i + 1][..i] == windows[..i];
      if windows[i].id == id {
        w := Some(windows[i]);
      }
    }
    assert windows[..|windows|] == windows;
  }

  /** `saved` lists the missing rows, each once. */
  ghost predicate IsListing(rows: Table, saved: seq<Reattach.SavedRow>) {
    && Reattach.DistinctRows(saved)
    && (forall i :: 0 <= i < |saved| ==> saved[i].id in MissingRows(rows) && saved[i].tabs == rows[saved[i].id].tabs)
    && (forall id :: id in MissingRows(rows) ==> exists i :: 0 <= i < |saved| && saved[i].id == id)
  }

  function SavedRows(rows: seq<Stored>): seq<Reattach.SavedRow> {
    seq(|rows|, i requires 0 <= i < |rows| => Reattach.SavedRow(rows[i].id, rows[i].row.tabs))
  }

  lemma SavedRowsList(rows: Table, list: seq<Stored>)
    requires Lists(rows, MissingRows(rows), list)
    ensures IsListing(rows, SavedRows(list))
  {
    forall id | id in MissingRows(rows) ensures exists i :: 0 <= i < |list| && SavedRows(list)[i].id == id {
      var i :| 0 <= i < |list| && list[i].id == id;
      assert SavedRows(list)[i].id == id;
    }
  }

  /** `matches` is the whole matching of the missing rows with the listed
      windows outside `owned`. */
  ghost predicate MatchesOf(rows: Table, live: seq<Window>, owned: set<WindowId>, matches: map<WindowId, RowId>) {
    exists saved ::
      IsListing(rows, saved) && Reattach.IsMatching(saved, live, owned, Reattach.REATTACH_THRESHOLD, matches)
  }

  /** That matching pairs window `w` with row `id`. */
  ghost predicate Pairs(rows: Table, live: seq<Window>, owned: set<WindowId>, w: WindowId, id: RowId) {
    exists matches :: MatchesOf(rows, live, owned, matches) && w in matches && matches[w] == id
  }

  ghost predicate Paired(rows: Table, live: seq<Window>, owned: set<WindowId>, w: WindowId) {
    exists id :: Pairs(rows, live, owned, w, id)
  }

  lemma SameCandidates(rows: Table, a: seq<Reattach.SavedRow>, b: seq<Reattach.SavedRow>, sets: map<WindowId,
                       set<string>>, threshold: real, c: Reattach.Candidate)
    requires IsListing(rows, a) && IsListing(rows, b) && Reattach.IsCandidate(a, sets, threshold, c)
    ensures Reattach.IsCandidate(b, sets, threshold, c)
  {
    var r :| r in a && r.id == c.row && Reattach.RowKeys(r) != {}
             && c.score == Reattach.JaccardIndex(Reattach.RowKeys(r), sets[c.window]) >= threshold;
    var i :| 0 <= i < |b| && b[i].id == r.id;
    assert b[i].tabs == r.tabs && b[i] in b;
  }

  /** There is one matching, however the missing rows are listed. */
  lemma MatchingIsUnique(rows: Table, live: seq<Window>, owned: set<WindowId>, m: map<WindowId, RowId>,
                         m': map<WindowId, RowId>)
    requires MatchesOf(rows, live, owned, m) && MatchesOf(rows, live, owned, m')
    ensures m == m'
  {
    var sets, t := Reattach.WindowSets(live, owned), Reattach.REATTACH_THRESHOLD;
    var a :| IsListing(rows, a) && Reattach.IsMatching(a, live, owned, t, m);
    var b :| IsListing(rows, b) && Reattach.IsMatching(b, live, owned, t, m');
    var cs :| Reattach.ListsCandidates(a, sets, t, cs) && m == Reattach.Greedy(cs, |cs|).matches;
    var cs' :| Reattach.ListsCandidates(b, sets, t, cs') && m' == Reattach.Greedy(cs', |cs'|).matches;
    forall c ensures c in cs <==> c in cs' {
      if c in cs { SameCandidates(rows, a, b, sets, t, c); }
      if c in cs' { SameCandidates(rows, b, a, sets, t, c); }
    }
    Reattach.SortedUnique(cs, cs');
  }

  lemma PairsIff(rows: Table, live: seq<Window>, owned: set<WindowId>, matches: map<WindowId, RowId>, w: WindowId)
    requires MatchesOf(rows, live, owned, matches)
    ensures forall id :: Pairs(rows, live, owned, w, id) <==> w in matches && matches[w] == id
  {
    forall id | Pairs(rows, live, owned, w, id) ensures w in matches && matches[w] == id {
      var m :| MatchesOf(rows, live, owned, m) && w in m && m[w] == id;
      MatchingIsUnique(rows, live, owned, matches, m);
    }
  }

  /** Matched are missing rows with listed windows outside `owned`, one to
      one. */
  ghost predicate Admissible(rows: Table, live: seq<Window>, owned: set<WindowId>, matches: map<WindowId, RowId>) {
    && OneRowEach(matches)
    && forall w :: w in matches ==> matches[w] in MissingRows(rows) && w !in owned && w in ListedIds(live)
  }

  lemma MatchesAreAdmissible(rows: Table, live: seq<Window>, owned: set<WindowId>, matches: map<WindowId, RowId>)
    requires MatchesOf(rows, live, owned, matches)
    ensures Admissible(rows, live, owned, matches)
  {
    var t := Reattach.REATTACH_THRESHOLD;
    var saved :| IsListing(rows, saved) && Reattach.IsMatching(saved, live, owned, t, matches);
    var cs :| Reattach.ListsCandidates(saved, Reattach.WindowSets(live, owned), t, cs)
              && matches == Reattach.Greedy(cs, |cs|).matches;
    forall w | w in matches ensures matches[w] in MissingRows(rows) && w !in owned && w in ListedIds(live) {
      ReattachTheory.MatchesAreAdmissible(saved, live, owned, t, cs, w);
    }
    forall v, w | v in matches && w in matches && v != w ensures matches[v] != matches[w] {
      ReattachTheory.MatchingInjective(cs, |cs|, v, w);
    }
  }

  lemma PairedIsMatchable(rows: Table, live: seq<Window>, owned: set<WindowId>, w: WindowId)
    ensures Paired(rows, live, owned, w) ==> w !in owned && w in ListedIds(live) && MissingRows(rows) != {}
  {
    if Paired(rows, live, owned, w) {
      var id :| Pairs(rows, live, owned, w, id);
      var m :| MatchesOf(rows, live, owned, m) && w in m && m[w] == id;
      MatchesAreAdmissible(rows, live, owned, m);
    }
  }

  lemma AnyListedMissing(rows: Table, list: seq<Stored>)
    requires Lists(rows, MissingRows(rows), list)
    ensures |list| == |MissingRows(rows)|
    ensures list == [] <==> MissingRows(rows) == {}
  {
    DistinctIdsCount(list);
    assert IdsIn(list) == MissingRows(rows);
  }

  function IdsIn(list: seq<Stored>): set<RowId> {
    set i | 0 <= i < |list| :: list[i].id
  }

  lemma {:induction false} DistinctIdsCount(list: seq<Stored>)
    requires forall i, j :: 0 <= i < j < |list| ==> list[i].id != list[j].id
    ensures |IdsIn(list)| == |list|
  {
    if list != [] {
      var n := |list| - 1;
      DistinctIdsCount(list[..n]);
      assert IdsIn(list) == IdsIn(list[..n]) + {list[n].id};
    }
  }

  /** Without missing rows nothing is matched. */
  lemma NothingToMatch(rows: Table, live: seq<Window>, owned: set<WindowId>)
    requires MissingRows(rows) == {}
    ensures MatchesOf(rows, live, owned, map[])
  {
    var saved: seq<Reattach.SavedRow>, cs: seq<Reattach.Candidate> := [], [];
    assert IsListing(rows, saved);
    assert Reattach.ListsCandidates(saved, Reattach.WindowSets(live, owned), Reattach.REATTACH_THRESHOLD, cs);
    assert Reattach.Greedy(cs, 0).matches == map[];
    assert Reattach.IsMatching(saved, live, owned, Reattach.REATTACH_THRESHOLD, map[]);
  }

  /** The tabs of a row after saving window `w` as listed. */
  function ShownTabs(live: seq<Window>, w: WindowId, tabs: seq<SavedTab>): seq<SavedTab> {
    var v := FirstListed(live, w);
    if v.Some? then Merged(v.value, tabs) else tabs
  }

  /** The row that the matching pairs with `w` now owns it; `saved` when its
      tabs were merged with what the window shows. */
  ghost predicate PairReopened(rows: Table, rows': Table, live: seq<Window>, owned: set<WindowId>, w: WindowId,
                               saved: bool) {
    exists id :: Pairs(rows, live, owned, w, id) && ReopenedAs(rows, rows', live, w, id, saved)
  }

  ghost predicate ReopenedAs(rows: Table, rows': Table, live: seq<Window>, w: WindowId, id: RowId, saved: bool) {
    && id in rows && id in rows' && rows' == rows[id := rows'[id]]
    && Holds(rows'[id], w) && rows'[id].session == rows[id].session
    && (saved ==> rows'[id].tabs == ShownTabs(live, w, rows[id].tabs))
  }

  ghost predicate MatchReopened(rows: Table, rows': Table, live: seq<Window>, owned: set<WindowId>, w: WindowId) {
    PairReopened(rows, rows', live, owned, w, true)
  }

  /** At most the paired row was reopened in `w`, and for `sure` if there is
      one. */
  ghost predicate MatchedLate(rows: Table, rows': Table, live: seq<Window>, owned: set<WindowId>, w: WindowId,
                              sure: bool) {
    && (rows' == rows || MatchReopened(rows, rows', live, owned, w))
    && (sure && Paired(rows, live, owned, w) ==> MatchReopened(rows, rows', live, owned, w))
  }

  lemma LateOutcome(rows: Table, rows': Table, live: seq<Window>, owned: set<WindowId>, w: WindowId, sure: bool,
                    ok: bool, done: bool)
    requires if done then Restored(rows, rows', w) && PairReopened(rows, rows', live, owned, w, ok) else rows' == rows
    requires ok && sure && Paired(rows, live, owned, w) ==> done
    ensures Gains(rows, rows', w) && (ok ==> MatchedLate(rows, rows', live, owned, w, sure))
  {
  }

  /** The listed window shows a page that can be compared. */
  ghost predicate ComparableIn(live: seq<Window>, w: WindowId) {
    FirstListed(live, w).Some? && Reattach.UrlSet(Reattach.WindowUrls(FirstListed(live, w).value)) != {}
  }

  /** Window `w` went to a new row of the parent session, if there is one, that
      holds what it shows. */
  ghost predicate GoesTo(rows: Table, rows': Table, live: seq<Window>, w: WindowId, parent: SessionId) {
    if parent == 0 then rows' == rows else exists id :: NewIn(rows, rows', live, w, parent, id)
  }

  ghost predicate NewIn(rows: Table, rows': Table, live: seq<Window>, w: WindowId, parent: SessionId, id: RowId) {
    && id !in rows && id in rows' && rows' == rows[id := rows'[id]]
    && Holds(rows'[id], w) && rows'[id].session == parent
    && rows'[id].tabs == ShownTabs(live, w, [])
  }

  /** What becomes of a new window: while restoring it waits until it can be
      compared and then goes to the row it is paired with; else it goes to the
      parent session. */
  ghost predicate AdoptedAs(rows: Table, rows': Table, live: seq<Window>, owned: set<WindowId>, w: WindowId,
                            parent: SessionId, deferred: bool, restoring: bool, sure: bool) {
    if !restoring then !deferred && GoesTo(rows, rows', live, w, parent)
    else if !ComparableIn(live, w) then deferred && rows' == rows
    else !deferred && MatchedLate(rows, rows', live, owned, w, sure)
  }

  /** What becomes of a window that waited: the same, but a window paired with
      no row goes to the parent session after all. */
  ghost predicate SettledAs(rows: Table, rows': Table, live: seq<Window>, owned: set<WindowId>, w: WindowId,
                            parent: SessionId, deferred: bool, restoring: bool, sure: bool) {
    if !restoring then !deferred && GoesTo(rows, rows', live, w, parent)
    else if !ComparableIn(live, w) then deferred && rows' == rows
    else
      && !deferred && (MatchReopened(rows, rows', live, owned, w) || GoesTo(rows, rows', live, w, parent))
      && (sure && Paired(rows, live, owned, w) ==> MatchReopened(rows, rows', live, owned, w))
  }

  /** The same with the session that owns `focused` as parent. */
  ghost predicate AdoptedFrom(rows: Table, rows': Table, live: seq<Window>, owned: set<WindowId>, w: WindowId,
                              focused: WindowId, deferred: bool, restoring: bool, sure: bool) {
    exists parent ::
      IsParent(rows, focused, parent) && AdoptedAs(rows, rows', live, owned, w, parent, deferred, restoring, sure)
  }

  /** A window that waited: dropped when it is not listed, still waiting while
      it shows nothing to compare, else it has an owner or nobody was in focus
      when it appeared. */
  ghost predicate ResolvedAt(rows: Table, live: seq<Window>, w: WindowId, parent: SessionId, deferred: bool, ok: bool) {
    && (deferred ==> w in ListedIds(live))
    && (ok && deferred ==> !ComparableIn(live, w))
    && (ok && !deferred && w in ListedIds(live) ==> parent == 0 || w in Owned(rows))
  }

  /** The same for all that waited, but for those in `rest`. */
  ghost predicate Resolved(rows: Table, live: seq<Window>, was: map<WindowId, SessionId>, waiting: map<WindowId,
                           SessionId>, rest: set<WindowId>, ok: bool) {
    && (forall w :: w in waiting ==> w in was && waiting[w] == was[w])
    && (forall w :: w in rest ==> w in waiting)
    && (forall w :: w in was && w !in rest ==> ResolvedAt(rows, live, w, was[w], w in waiting, ok))
  }

  lemma ResolvedOne(a: Table, b: Table, live: seq<Window>, was: map<WindowId, SessionId>, waiting: map<WindowId,
                    SessionId>, waiting': map<WindowId, SessionId>, rest: set<WindowId>, w: WindowId, ok: bool,
                    done: bool)
    requires Resolved(a, live, was, waiting, rest, ok) && Gains(a, b, w) && w in rest
    requires waiting' - {w} == waiting - {w} && (w in waiting' ==> waiting'[w] == waiting[w])
    requires ResolvedAt(b, live, w, was[w], w in waiting', done)
    ensures Resolved(b, live, was, waiting', rest - {w}, ok && done)
  {
    forall v | v != w ensures (v in waiting' <==> v in waiting) && (v in waiting ==> waiting'[v] == waiting[v]) {
      assert v in waiting' - {w} <==> v in waiting - {w};
      assert v in waiting ==> (waiting' - {w})[v] == (waiting - {w})[v];
    }
  }

  lemma RestoredThenSaved(a: Table, b: Table, c: Table, id: RowId, live: seq<Window>, w: WindowId, at: Time, ok: bool)
    requires id in a && b == WithReopened(a, id, w, at) && WellFormed(b) && Restored(a, b, w)
    requires var v := FirstListed(live, w);
             v.Some? && (c == b || (Savable(v.value) && c == WithSaved(b, v.value, at)))
             && (ok && Savable(v.value) ==> c == WithSaved(b, v.value, at))
    ensures Restored(a, c, w) && ReopenedAs(a, c, live, w, id, ok)
  {
    var v := FirstListed(live, w).value;
    assert Holds(b[id], w);
    if c != b {
      SavedEffects(b, v, at);
    }
    assert forall j :: j in a && j != id ==> b[j] == a[j] && !Holds(b[j], w);
    assert c == a[id := c[id]];
  }

  /** Window `w`, which had no owner, now belongs to a row that was not open;
      everything else stays as it was owned. */
  ghost predicate Restored(rows: Table, rows': Table, w: WindowId) {
    && w !in Owned(rows) && w != "" && Owned(rows') == Owned(rows) + {w}
    && StillOpen(rows, rows') && Keeps(rows, rows') && rows'.Keys == rows.Keys
    && RowsStay(rows, rows', {w})
  }

  lemma FlushOne(was: Table, rows: Table, closed: set<WindowId>, w: WindowId, ok: bool)
    requires WellFormed(was) && PartlyFlushed(was, rows, closed, ok)
    ensures PartlyFlushed(was, MissingWindow(rows, w), closed + {w}, ok)
    ensures PartlyFlushed(was, rows, closed + {w}, false)
  {
  }

  /** Rows of the `closed` windows became missing with their tabs unchanged;
      all of them when nothing failed, and no other row changed. */
  ghost predicate PartlyFlushed(was: Table, rows: Table, closed: set<WindowId>, all: bool) {
    && rows.Keys == was.Keys
    && (forall id :: id in rows ==> rows[id] == was[id] || rows[id] == FlushedRow(was[id], closed))
    && (all ==> forall id :: id in rows ==> rows[id] == FlushedRow(was[id], closed))
  }

  function FlushedRow(row: Row, closed: set<WindowId>): Row {
    if row.state.Open? && row.window in closed then Missed(row) else row
  }

  /** Only window `w` may have found an owner. */
  ghost predicate Gains(rows: Table, rows': Table, w: WindowId) {
    GainsFrom(rows, rows', {w})
  }

  ghost predicate GainsFrom(rows: Table, rows': Table, ids: set<WindowId>) {
    && rows.Keys <= rows'.Keys && Owned(rows) <= Owned(rows') <= Owned(rows) + ids
    && StillOpen(rows, rows') && Keeps(rows, rows') && RowsStay(rows, rows', ids)
  }

  /** Every row stays as it is, but for closed ones that were reopened in one of
      those windows. */
  ghost predicate RowsStay(rows: Table, rows': Table, ids: set<WindowId>) {
    forall id :: id in rows ==>
      && id in rows'
      && (|| rows'[id] == rows[id]
          || (!rows[id].state.Open? && OpenIn(rows'[id], ids) && rows'[id].session == rows[id].session))
  }

  predicate OpenIn(row: Row, ids: set<WindowId>) {
    row.state.Open? && row.window in ids
  }

  /** A row just added in window `w` holds what the listing shows there. */
  lemma AddedThenSaved(a: Table, b: Table, c: Table, id: RowId, row: Row, live: seq<Window>, at: Time)
    requires WellFormed(b) && id !in a && row.state.Open? && row.window != "" && row.session != 0 && b == a[id := row]
    requires row.tabs == []
    requires Gains(a, b, row.window)
    requires c == Snapshotting(b, FirstListed(live, row.window), at)
    ensures Gains(a, c, row.window) && GoesTo(a, c, live, row.window, row.session)
  {
    var v := FirstListed(live, row.window);
    if v.Some? && Savable(v.value) {
      SavedEffects(b, v.value, at);
    }
    SavedAsNew(a, b, c, id, row, live, at);
    assert NewIn(a, c, live, row.window, row.session, id);
  }

  lemma SavedAsNew(a: Table, b: Table, c: Table, id: RowId, row: Row, live: seq<Window>, at: Time)
    requires WellFormed(b) && id !in a && row.state.Open? && row.window != "" && b == a[id := row] && row.tabs == []
    requires c == Snapshotting(b, FirstListed(live, row.window), at)
    ensures NewIn(a, c, live, row.window, row.session, id)
  {
    assert Holds(b[id], row.window);
    assert forall j :: j in a ==> b[j] == a[j] && !Holds(b[j], row.window);
  }

  lemma GainsListed(a: Table, b: Table, c: Table, w: WindowId, ids: set<WindowId>, listed: set<WindowId>)
    requires GainsFrom(a, b, ids * listed) && Gains(b, c, w) && w in ids && (w !in listed ==> c == b)
    ensures GainsFrom(a, c, ids * listed)
  {
  }

  function ReopenedRow(row: Row, w: WindowId, at: Time): Row {
    row.(state := Open, window := w, focusedAt := at)
  }

  /** Rows matched with windows outside `rest` were reopened in them, all of
      them if nothing failed; no other row changed. */
  ghost predicate Rematched(rows: Table, rows': Table, matches: map<WindowId, RowId>, rest: set<WindowId>, at: Time,
                            ok: bool) {
    && rows'.Keys == rows.Keys
    && (forall id :: id in rows && (forall w :: w in matches && w !in rest ==> matches[w] != id) ==>
          rows'[id] == rows[id])
    && (forall w :: w in matches && w !in rest ==>
          && matches[w] in rows
          && (|| rows'[matches[w]] == rows[matches[w]]
              || (w != "" && rows'[matches[w]] == ReopenedRow(rows[matches[w]], w, at)))
          && (ok && w != "" ==> rows'[matches[w]] == ReopenedRow(rows[matches[w]], w, at)))
  }

  lemma RematchOne(a: Table, b: Table, c: Table, matches: map<WindowId, RowId>, rest: set<WindowId>, w: WindowId,
                   at: Time, ok: bool, done: bool)
    requires Rematched(a, b, matches, rest, at, ok) && OneRowEach(matches) && w in rest && w in matches
    requires matches[w] in a
    requires c == if done && w != "" then WithReopened(b, matches[w], w, at) else b
    ensures Rematched(a, c, matches, rest - {w}, at, ok && done)
  {
    assert b[matches[w]] == a[matches[w]];
  }

  /** Reopening the matched rows one by one, those of `rest` still to come. */
  ghost predicate Rematching(rows: Table, rows': Table, ids: set<WindowId>, matches: map<WindowId, RowId>,
                             rest: set<WindowId>, at: Time, ok: bool) {
    CanReopen(rows', matches, rest) && Rematched(rows, rows', matches, rest, at, ok) && GainsFrom(rows, rows', ids)
  }

  lemma RematchingOne(a: Table, b: Table, c: Table, ids: set<WindowId>, matches: map<WindowId, RowId>,
                      rest: set<WindowId>, w: WindowId, at: Time, ok: bool, done: bool)
    requires Rematching(a, b, ids, matches, rest, at, ok) && OneRowEach(matches) && w in rest && w in matches
    requires w in ids
    requires c == (if done && w != "" then WithReopened(b, matches[w], w, at) else b)
    requires CanReopen(c, matches, rest - {w}) && Gains(b, c, w)
    ensures Rematching(a, c, ids, matches, rest - {w}, at, ok && done)
  {
    RematchOne(a, b, c, matches, rest, w, at, ok, done);
    GainsOneMore(a, b, c, w, ids);
  }

  /** A row owns exactly the window it is matched with. */
  ghost predicate OwnsBy(rows: Table, matches: map<WindowId, RowId>) {
    forall id, w :: id in rows ==> (Holds(rows[id], w) <==> w != "" && w in matches && matches[w] == id)
  }

  lemma OwnersAreMatched(rows: Table, rows': Table, matches: map<WindowId, RowId>, at: Time)
    requires Rematched(rows, rows', matches, {}, at, true) && OneRowEach(matches) && Owned(rows) == {}
    requires WellFormed(rows')
    ensures OwnsBy(rows', matches)
  {
    forall id | id in rows && rows[id].state.Open? ensures rows[id].window in Owned(rows) {
    }
    forall id, w | id in rows' ensures Holds(rows'[id], w) <==> w != "" && w in matches && matches[w] == id {
      if v :| v in matches && matches[v] == id {
        assert rows'[id] == rows[id] || rows'[id] == ReopenedRow(rows[id], v, at);
      }
    }
  }

  /** The deadline for matching rows, dropped when none is missing. */
  function Deadline(until: Time, missing: int): Time {
    if missing > 0 then until else 0
  }

  /** After a restart with that listing a row owns a window exactly when the
      matching of the missing rows with the listed windows pairs them, and the
      others may still be matched until the deadline. */
  ghost predicate RestartOwners(rows: Table, rows': Table, listed: seq<Window>, until: Time, until': Time) {
    exists matches ::
      && MatchesOf(rows, listed, {}, matches) && OwnsBy(rows', matches)
      && until' == Deadline(until, |MissingRows(rows)| - |matches|)
  }

  /** The same for the rows the old run left behind; the deadline was set between
      the two times. */
  ghost predicate RestartOwnersOf(rows: Table, rows': Table, listed: seq<Window>, window: Time, started: Time,
                                  ended: Time, until': Time) {
    exists until ::
      DeadlineSet(window, started, ended, until) && RestartOwners(MissingExcept(rows, {}), rows', listed, until, until')
  }

  predicate DeadlineSet(window: Time, started: Time, ended: Time, until: Time) {
    if window > 0 then started + window <= until <= ended + window else until == 0
  }

  /** What keeping closed windows' rows at the start of a connection means for
      what comes after it. */
  ghost predicate Begun(rows: Table, rows': Table, closed: set<WindowId>, all: bool) {
    && MissingExcept(rows, {}) == MissingExcept(rows', {}) && Keeps(rows, rows')
    && (forall c, ids, except :: ListedStay(rows', c, ids, {}, except) ==> ListedStay(rows, c, ids, closed, except))
    && (forall c, restarted, sure :: (sure ==> all) && Unlisted(rows', c, restarted, sure) ==>
          FlushedOnly(rows, c, closed, restarted, sure))
    && (forall c, gained :: Realigned(rows', c, {}, gained, {}) ==> Realigned(rows, c, {}, gained, {}))
    && (all ==>
          forall c, ids, gained, except :: Realigned(rows', c, ids, gained, except) ==>
            Realigned(rows, c, ids - closed, gained, except))
  }

  lemma FlushedIsBegun(a: Table, b: Table, closed: set<WindowId>, all: bool)
    requires PartlyFlushed(a, b, closed, all)
    ensures Begun(a, b, closed, all)
  {
    MissedTwice(a, b, closed, all);
    FlushEffects(a, b, closed, all);
    forall c, ids, except | ListedStay(b, c, ids, {}, except) ensures ListedStay(a, c, ids, closed, except) {
      ListedStayFlushed(a, b, c, ids, closed, all, except);
    }
    forall c, gained | Realigned(b, c, {}, gained, {}) ensures Realigned(a, c, {}, gained, {}) {
      RealignedAgain(a, b, c, closed, all, gained);
    }
    forall c, ids, gained, except | all && Realigned(b, c, ids, gained, except)
      ensures Realigned(a, c, ids - closed, gained, except)
    {
      RealignedFlushed(a, b, c, closed, ids, gained, except);
    }
  }

  lemma RealignedAgain(a: Table, b: Table, c: Table, closed: set<WindowId>, all: bool, gained: set<WindowId>)
    requires PartlyFlushed(a, b, closed, all) && Realigned(b, c, {}, gained, {})
    ensures Realigned(a, c, {}, gained, {})
  {
  }

  lemma RealignedFlushed(a: Table, b: Table, c: Table, closed: set<WindowId>, ids: set<WindowId>, gained: set<WindowId>,
                         except: set<RowId>)
    requires PartlyFlushed(a, b, closed, true) && Realigned(b, c, ids, gained, except)
    ensures Realigned(a, c, ids - closed, gained, except)
  {
    forall id | id in a && id !in except && !OpenIn(a[id], ids - closed)
      ensures !OpenIn(b[id], ids) && ClosedNow(b[id]) == ClosedNow(a[id])
    {
    }
  }

  lemma OwnsBySaved(a: Table, b: Table, matches: map<WindowId, RowId>)
    requires OwnsBy(a, matches) && Resaved(a, b) && WellFormed(a) && WellFormed(b)
    ensures OwnsBy(b, matches)
  {
    forall id, w | id in b ensures Holds(b[id], w) <==> Holds(a[id], w) {
      SameHolder(a, b, id, w);
    }
  }

  /** Only listed windows are owned or waited for, and with distinct ids every
      open row holds the merge with what its window shows. */
  ghost predicate Aligned(rows: Table, deferred: map<WindowId, SessionId>, listed: seq<Window>) {
    && Owned(rows) <= ListedIds(listed) && deferred.Keys <= ListedIds(listed)
    && (DistinctListed(listed) ==> UpToDate(rows, listed))
  }

  /** Every listed window that was to be closed was told to. */
  ghost predicate CarriedOut(pending: map<WindowId, PendingClose>, listed: seq<Window>, closing: set<WindowId>,
                             sent: seq<Command>) {
    forall w :: w in pending && w in ListedIds(listed) ==> w in closing && Close(w) in sent
  }

  /** The id of the last focused window listed. */
  function LastFocusIn(windows: seq<Window>): WindowId {
    if windows == [] then ""
    else if windows[|windows| - 1].focused then windows[|windows| - 1].id
    else LastFocusIn(windows[..|windows| - 1])
  }

  lemma NoneToMiss(rows: Table, live: set<WindowId>)
    requires Owned(rows) == {}
    ensures MissingExcept(rows, live) == rows
  {
    forall id | id in rows && rows[id].state.Open? ensures rows[id].window in Owned(rows) {
    }
  }

  lemma ListedStayAfter(a: Table, b: Table, c: Table, ids: set<WindowId>)
    requires b == MissingExcept(a, ids) && StillOpen(b, c)
    ensures ListedStay(a, c, ids, {}, {})
  {
    forall id | id in a && a[id].state.Open? && a[id].window in ids ensures b[id] == a[id] {
    }
  }

  /** Closed rows stay as they are or are open in one of the `gained` windows. */
  lemma GainsThenSaved(a: Table, b: Table, c: Table, ids: set<WindowId>)
    requires GainsFrom(a, b, ids) && Resaved(b, c)
    ensures Owned(c) <= Owned(a) + ids && StillOpen(a, c) && Keeps(a, c) && Realigned(a, c, Owned(a), ids, {})
  {
    forall id | id in a && a[id].state.Open? ensures a[id].window in Owned(a) {
    }
  }

  /** Rows that were open in windows other than those of `ids` are missing now,
      with their tabs, and closed rows are as they were, unless they are open in
      one of the `gained` windows. */
  ghost predicate Realigned(rows: Table, rows': Table, ids: set<WindowId>, gained: set<WindowId>, except: set<RowId>) {
    forall id :: id in rows && id !in except && !OpenIn(rows[id], ids) ==>
      id in rows' && (rows'[id] == ClosedNow(rows[id]) || OpenIn(rows'[id], gained))
  }

  function ClosedNow(row: Row): Row {
    if row.state.Open? then Missed(row) else row
  }

  lemma RealignedAfterMissing(a: Table, b: Table, c: Table, ids: set<WindowId>, gained: set<WindowId>)
    requires b == MissingExcept(a, ids) && Realigned(b, c, Owned(b), gained, {})
    ensures Realigned(a, c, ids, gained, {})
  {
    forall id | id in a && !OpenIn(a[id], ids) ensures b[id] == ClosedNow(a[id]) && !b[id].state.Open? {
    }
  }

  lemma RealignedRestart(a: Table, b: Table, c: Table, ids: set<WindowId>, gained: set<WindowId>)
    requires b == MissingExcept(a, {}) && Realigned(b, c, ids, gained, {})
    ensures Realigned(a, c, {}, gained, {})
  {
    forall id | id in a ensures b[id] == ClosedNow(a[id]) && !b[id].state.Open? {
    }
  }

  /** Without a listing nothing changed, but that after a new run every row is
      missing; for sure if the store did not fail. */
  ghost predicate Unlisted(rows: Table, rows': Table, restarted: bool, sure: bool) {
    && (rows' == rows || (restarted && rows' == MissingExcept(rows, {})))
    && (restarted && sure ==> rows' == MissingExcept(rows, {}))
  }

  /** The same after the rows of the `closed` windows became missing. */
  ghost predicate FlushedOnly(rows: Table, rows': Table, closed: set<WindowId>, restarted: bool, sure: bool) {
    && (PartlyFlushed(rows, rows', closed, sure) || (restarted && rows' == MissingExcept(rows, {})))
    && (restarted && sure ==> rows' == MissingExcept(rows, {}))
  }

  lemma RealignedAfterClosing(a: Table, b: Table, c: Table, ids: set<WindowId>, gained: set<WindowId>,
                              except: set<RowId>)
    requires Realigned(b, c, ids, gained, {}) && b.Keys == a.Keys
    requires forall id :: id in a && id !in except ==> b[id] == a[id]
    ensures Realigned(a, c, ids, gained, except)
  {
  }

  lemma GainsOneMore(a: Table, b: Table, c: Table, w: WindowId, ids: set<WindowId>)
    requires GainsFrom(a, b, ids) && Gains(b, c, w) && w in ids
    ensures GainsFrom(a, c, ids)
  {
  }

  lemma RejectionsStep(windows: seq<Window>, n: nat, matches: map<WindowId, RowId>, owned: set<WindowId>)
    requires n < |windows|
    ensures var w := windows[n];
            Rejections(windows[..n + 1], matches, owned) == Rejections(windows[..n], matches, owned) +
              if w.id !in matches && w.id !in owned && Reattach.UrlSet(Reattach.WindowUrls(w)) != {} then {w.id} else {}
  {
    assert windows[..n + 1] == windows[..n] + [windows[n]];
  }

  /** The comparable windows that are neither matched nor owned. */
  function Rejections(windows: seq<Window>, matches: map<WindowId, RowId>, owned: set<WindowId>): set<WindowId> {
    set w | w in windows && w.id !in matches && w.id !in owned && Reattach.UrlSet(Reattach.WindowUrls(w)) != {} :: w.id
  }

  /** An open row whose window is listed, did not close and was not to be closed
      still owns it. */
  ghost predicate ListedStay(rows: Table, rows': Table, ids: set<WindowId>, closed: set<WindowId>, except: set<RowId>) {
    forall id :: id in rows && OpenIn(rows[id], ids) && rows[id].window !in closed && id !in except ==>
      id in rows' && Holds(rows'[id], rows[id].window) && rows'[id].session == rows[id].session
  }

  lemma MissedTwice(a: Table, b: Table, closed: set<WindowId>, all: bool)
    requires PartlyFlushed(a, b, closed, all)
    ensures MissingExcept(b, {}) == MissingExcept(a, {})
  {
  }

  lemma ListedStayFlushed(a: Table, b: Table, c: Table, ids: set<WindowId>, closed: set<WindowId>, all: bool,
                          except: set<RowId>)
    requires PartlyFlushed(a, b, closed, all) && ListedStay(b, c, ids, {}, except)
    ensures ListedStay(a, c, ids, closed, except)
  {
  }

  /** `session` owns the window `focused`, or is 0 when nobody does. */
  ghost predicate IsParent(rows: Table, focused: WindowId, session: SessionId) {
    if focused in Owned(rows) then OwnedBy(rows, focused, session) else session == 0
  }

  /** Whether the tabs could be stored, and whether every pending one opened. */
  datatype Opened = Opened(stored: bool, all: bool)

  /** The row that owns `w` waits for no tab. */
  ghost predicate NonePending(rows: Table, w: WindowId) {
    forall id :: id in rows && Holds(rows[id], w) ==> !AnyPending(rows[id].tabs)
  }

  lemma {:induction false} NothingPending(tabs: seq<SavedTab>)
    ensures PendingOf(tabs) == [] ==> !AnyPending(tabs)
  {
    if tabs != [] {
      NothingPending(tabs[..|tabs| - 1]);
    }
  }

  /** The table after a snapshot of that window, if it is there and shows
      something to save. */
  function Snapshotting(rows: Table, w: Option<Window>, at: Time): Table {
    if w.Some? && Savable(w.value) then WithSaved(rows, w.value, at) else rows
  }

  predicate DistinctListed(windows: seq<Window>) {
    forall i, j :: 0 <= i < j < |windows| ==> windows[i].id != windows[j].id
  }

  /** Open rows hold what their listed windows show, merged with what was
      still pending; other rows keep their tabs. */
  ghost predicate OwnedSaved(rows: Table, rows': Table, listed: seq<Window>) {
    && rows'.Keys == rows.Keys
    && forall id :: id in rows ==>
         rows'[id].tabs == if rows[id].state.Open? then LastTabs(rows[id], Some(listed)) else rows[id].tabs
  }

  /** Every open row already holds the merge with what its listed window
      shows. */
  ghost predicate UpToDate(rows: Table, listed: seq<Window>) {
    forall id :: id in rows && rows[id].state.Open? ==> LastTabs(rows[id], Some(listed)) == rows[id].tabs
  }

  lemma SavedIsUpToDate(a: Table, b: Table, listed: seq<Window>)
    requires OwnedSaved(a, b, listed) && Resaved(a, b) && WellFormed(a) && WellFormed(b)
    ensures UpToDate(b, listed)
  {
    forall id | id in b && b[id].state.Open? ensures LastTabs(b[id], Some(listed)) == b[id].tabs {
      SameHolder(a, b, id, b[id].window);
      var w := LastListed(listed, b[id].window);
      if w.Some? {
        MergeIsIdempotent(w.value, a[id].tabs);
      }
    }
  }

  /** The first `n` windows were saved. */
  ghost predicate Saving(rows: Table, rows': Table, windows: seq<Window>, n: nat, ok: bool) {
    n <= |windows| && Resaved(rows, rows') && (ok && DistinctListed(windows) ==> OwnedSaved(rows, rows', windows[..n]))
  }

  lemma SavingStep(a: Table, b: Table, c: Table, windows: seq<Window>, n: nat, at: Time, ok: bool, done: bool)
    requires WellFormed(a) && WellFormed(b) && n < |windows| && Saving(a, b, windows, n, ok) && Resaved(b, c)
    requires done ==> c == Snapshotting(b, Some(windows[n]), at)
    ensures Saving(a, c, windows, n + 1, ok && done)
  {
    ResavedTwice(a, b, c);
    if ok && done && DistinctListed(windows) {
      OwnedSavedStep(a, b, c, windows, n, at);
    }
  }

  lemma SavingDone(a: Table, b: Table, windows: seq<Window>, ok: bool)
    requires WellFormed(a) && WellFormed(b) && Saving(a, b, windows, |windows|, ok)
    ensures ok && DistinctListed(windows) ==> OwnedSaved(a, b, windows) && UpToDate(b, windows)
  {
    assert windows[..|windows|] == windows;
    if ok && DistinctListed(windows) {
      SavedIsUpToDate(a, b, windows);
    }
  }

  lemma OwnedSavedStep(a: Table, b: Table, c: Table, windows: seq<Window>, n: nat, at: Time)
    requires DistinctListed(windows) && n < |windows| && OwnedSaved(a, b, windows[..n]) && Resaved(a, b)
    requires WellFormed(a) && WellFormed(b)
    requires c == Snapshotting(b, Some(windows[n]), at)
    ensures OwnedSaved(a, c, windows[..n + 1])
  {
    var w := windows[n];
    assert windows[..n + 1][..n] == windows[..n];
    assert w.id !in ListedIds(windows[..n]);
    forall id | id in a
      ensures c[id].tabs == if a[id].state.Open? then LastTabs(a[id], Some(windows[..n + 1])) else a[id].tabs
    {
      SameHolder(a, b, id, w.id);
    }
  }

  lemma OnlyHolder(rows: Table, id: RowId, w: WindowId)
    requires WellFormed(rows) && id in rows && Holds(rows[id], w)
    ensures forall j :: j in rows && Holds(rows[j], w) ==> j == id
  {
  }

  lemma SameHolder(a: Table, b: Table, id: RowId, w: WindowId)
    requires Resaved(a, b) && WellFormed(a) && WellFormed(b) && id in a
    ensures Holds(b[id], w) <==> Holds(a[id], w)
  {
    if Holds(b[id], w) {
      assert w in Owned(b);
      var j :| j in a && a[j].state.Open? && a[j].window == w;
      assert Holds(b[j], w) && j == id;
    }
  }

  lemma SavingAddsNoPending(rows: Table, w: Window, at: Time, id: WindowId)
    ensures NonePending(rows, id) ==> NonePending(WithSaved(rows, w, at), id)
  {
    forall j, i | NonePending(rows, id) && j in rows && Holds(rows[j], id) && 0 <= i < |Merged(w, rows[j].tabs)|
      ensures !Merged(w, rows[j].tabs)[i].pending {
      var t := Merged(w, rows[j].tabs)[i];
      if t.pending {
        MergeKeepsPending(w, rows[j].tabs, t);
      }
    }
  }

  lemma FocusEffects(rows: Table, w: WindowId, at: Time)
    ensures var rows' := WithFocus(rows, w, at);
            && Refocused(rows, rows', w) && Refocused(rows, rows, w)
            && (w != "" ==> FocusedBetween(rows', w, at, at))
            && forall id :: id in rows ==> rows'[id].tabs == rows[id].tabs
  {
    var rows' := WithFocus(rows, w, at);
    assert forall id :: id in rows ==> rows'[id].window == rows[id].window && rows'[id].state == rows[id].state;
  }

  /** Recording a focus changes no tabs. */
  lemma FocusKeepsTabs(rows: Table, rows': Table, w: WindowId)
    requires Refocused(rows, rows', w) && forall id :: id in rows ==> rows'[id].tabs == rows[id].tabs
    ensures forall id :: id in rows ==> (Holds(rows'[id], w) <==> Holds(rows[id], w)) && rows'[id].tabs == rows[id].tabs
  {
  }

  /** Saving tabs afterwards keeps the recorded focus. */
  lemma FocusedThenSaved(a: Table, b: Table, c: Table, w: WindowId, since: Time, until: Time)
    requires Refocused(a, b, w) && Resaved(b, c)
    requires forall id :: id in b && !Holds(b[id], w) ==> c[id] == b[id]
    ensures Refocused(a, c, w)
    ensures FocusedBetween(b, w, since, until) ==> FocusedBetween(c, w, since, until)
  {
  }

  lemma ReplacedTabs(rows: Table, id: RowId, tabs: seq<SavedTab>)
    requires id in rows && rows[id].state.Open? && |tabs| == |rows[id].tabs|
    ensures Resaved(rows, WithTabs(rows, id, tabs))
  {
    var rows' := WithTabs(rows, id, tabs);
    assert forall j :: j in rows ==> rows'[j].window == rows[j].window && rows'[j].state == rows[j].state;
  }

  function PendingMask(tabs: seq<SavedTab>): seq<bool> {
    seq(|tabs|, i requires 0 <= i < |tabs| => tabs[i].pending)
  }

  /** If the row `w` belongs to has pending tabs, exactly these were opened, in
      order. */
  ghost predicate PendingOpened(rows: Table, w: WindowId, opens: seq<(WindowId, Url)>) {
    if w in Owned(rows) then
      forall id :: id in rows && Holds(rows[id], w) ==>
        opens == Openings(w, rows[id].tabs, PendingMask(rows[id].tabs))
    else opens == []
  }

  lemma {:induction false} NothingToOpen(w: WindowId, tabs: seq<SavedTab>)
    requires !AnyPending(tabs)
    ensures Openings(w, tabs, PendingMask(tabs)) == []
  {
    if tabs != [] {
      var n := |tabs| - 1;
      NothingToOpen(w, tabs[..n]);
      assert PendingMask(tabs)[..n] == PendingMask(tabs[..n]);
    }
  }

  /** Only pending tabs are marked, all of them if nothing failed. */
  ghost predicate MarksPending(tabs: seq<SavedTab>, loaded: seq<bool>, all: bool) {
    && |loaded| == |tabs| && (forall i :: 0 <= i < |tabs| && loaded[i] ==> tabs[i].pending)
    && (all ==> loaded == PendingMask(tabs))
  }

  ghost predicate AllLoaded(tabs: seq<SavedTab>, loaded: seq<bool>) {
    |loaded| == |tabs| && forall i :: 0 <= i < |tabs| ==> tabs[i].pending ==> loaded[i]
  }

  lemma {:induction false} NoneLeft(tabs: seq<SavedTab>, loaded: seq<bool>)
    ensures AllLoaded(tabs, loaded) ==> !AnyPending(Released(tabs, loaded))
  {
    if tabs != [] && AllLoaded(tabs, loaded) {
      NoneLeft(tabs[..|tabs| - 1], loaded[..|tabs| - 1]);
    }
  }

  /** The first `n` tabs were gone through: those marked in `loaded` opened. */
  ghost predicate Loading(w: WindowId, was: seq<SavedTab>, n: nat, loaded: seq<bool>, tabs: seq<SavedTab>,
                          openings: seq<(WindowId, Url)>, all: bool) {
    && n == |loaded| <= |was|
    && tabs == Released(was[..n], loaded) && openings == Openings(w, was[..n], loaded)
    && MarksPending(was[..n], loaded, all)
  }

  lemma LoadingOne(w: WindowId, was: seq<SavedTab>, n: nat, loaded: seq<bool>, tabs: seq<SavedTab>,
                   openings: seq<(WindowId, Url)>, all: bool, last: bool)
    requires n < |was| && Loading(w, was, n, loaded, tabs, openings, all) && (last ==> was[n].pending)
    ensures Loading(w, was, n + 1, loaded + [last], tabs + [if last then was[n].(pending := false) else was[n]],
                    openings + if last then [(w, was[n].url)] else [], all && (last || !was[n].pending))
  {
    assert was[..n + 1][..n] == was[..n] && (loaded + [last])[..n] == loaded;
    assert PendingMask(was[..n + 1]) == PendingMask(was[..n]) + [was[n].pending];
  }

  /** An open row after archiving: kept for a restore, unless its window was
      already closed and waits to be forgotten. */
  ghost predicate ArchivedRow(row: Row, row': Row, removed: set<WindowId>, live: Option<seq<Window>>) {
    if row.window in removed then row' == row
    else row'.state.Snapshotted? && SameButTabs(row, row') && row'.tabs == LastTabs(row, live)
  }

  predicate SameButTabs(row: Row, row': Row) {
    row'.session == row.session && row'.focusedAt == row.focusedAt
  }

  /** The tabs an archived row keeps: merged with what its window shows last. */
  function LastTabs(row: Row, live: Option<seq<Window>>): seq<SavedTab> {
    var w := if live.Some? then LastListed(live.value, row.window) else None;
    if w.Some? then Merged(w.value, row.tabs) else row.tabs
  }

  /** No row of the session is left open or missing, but for closed windows
      that wait to be forgotten. */
  ghost predicate Archived(rows: Table, rows': Table, session: SessionId, removed: set<WindowId>,
                           live: Option<seq<Window>>) {
    && rows'.Keys == rows.Keys
    && forall id :: id in rows && rows[id].session == session ==>
         if rows[id].state.Open? then ArchivedRow(rows[id], rows'[id], removed, live)
         else rows'[id] == rows[id].(state := Snapshotted)
  }

  ghost predicate OthersSame(rows: Table, rows': Table, session: SessionId) {
    && forall id :: id in rows && rows[id].session != session ==> id in rows' && rows'[id] == rows[id]
  }

  /** Only row `id` may have changed, and it owns no new window. */
  ghost predicate ReworkedAt(rows: Table, rows': Table, id: RowId) {
    && Keeps(rows, rows') && Owned(rows') <= Owned(rows) && rows'.Keys == rows.Keys
    && forall j :: j in rows && j != id ==> rows'[j] == rows[j]
  }

  /** Only row `id` may have changed, and it may have got window `w` back. */
  ghost predicate GivenBackAt(rows: Table, rows': Table, id: RowId, w: WindowId) {
    && Keeps(rows, rows') && Owned(rows') <= Owned(rows) + {w} && rows'.Keys == rows.Keys
    && forall j :: j in rows && j != id ==> rows'[j] == rows[j]
  }

  lemma ReworkedOrGivenBack(a: Table, b: Table, c: Table, id: RowId, w: WindowId)
    requires ReworkedAt(a, b, id) && GivenBackAt(b, c, id, w) && w in Owned(a)
    ensures ReworkedAt(a, c, id)
  {
  }

  /** The same for the first `n` rows of the list. */
  ghost predicate Reworked(rows: Table, rows': Table, list: seq<Stored>, n: nat) {
    && Keeps(rows, rows') && Owned(rows') <= Owned(rows) && rows'.Keys == rows.Keys
    && (forall i :: 0 <= i < |list| ==> list[i].id in rows)
    && forall id :: id in rows && (forall i :: 0 <= i < n && i < |list| ==> list[i].id != id) ==> rows'[id] == rows[id]
  }

  /** The first `n` open rows have been archived. */
  ghost predicate OpenArchived(rows: Table, rows': Table, list: seq<Stored>, n: nat, removed: set<WindowId>,
                               live: Option<seq<Window>>, ok: bool) {
    && n <= |list| && Reworked(rows, rows', list, n)
    && (ok ==> forall j :: 0 <= j < n ==> ArchivedRow(list[j].row, rows'[list[j].id], removed, live))
  }

  predicate SameButState(row: Row, row': Row) {
    row' == row.(state := row'.state)
  }

  /** The first `n` rows that were not open have been frozen. */
  ghost predicate Frozen(rows: Table, rows': Table, list: seq<Stored>, n: nat, session: SessionId, ok: bool) {
    && n <= |list| && Reworked(rows, rows', list, n)
    && (forall j :: 0 <= j < n ==>
          && rows'[list[j].id].session == session && SameButState(list[j].row, rows'[list[j].id])
          && (ok ==> rows'[list[j].id].state.Snapshotted?))
  }

  lemma NotYetReworked(a: Table, b: Table, ids: set<RowId>, list: seq<Stored>, n: nat)
    requires Lists(a, ids, list) && n < |list| && Reworked(a, b, list, n)
    ensures list[n].id in ids && list[n].id in b && b[list[n].id] == list[n].row
  {
  }

  lemma ReworkStep(a: Table, b: Table, c: Table, ids: set<RowId>, list: seq<Stored>, n: nat)
    requires Lists(a, ids, list) && n < |list| && Reworked(a, b, list, n) && ReworkedAt(b, c, list[n].id)
    ensures Reworked(a, c, list, n + 1)
    ensures forall i :: 0 <= i < n ==> c[list[i].id] == b[list[i].id]
    ensures forall i :: n < i < |list| ==> c[list[i].id] == list[i].row
  {
  }

  lemma OpenStep(a: Table, b: Table, c: Table, ids: set<RowId>, list: seq<Stored>, n: nat, removed: set<WindowId>,
                 live: Option<seq<Window>>, ok: bool, done: bool)
    requires Lists(a, ids, list) && n < |list| && OpenArchived(a, b, list, n, removed, live, ok)
    requires ReworkedAt(b, c, list[n].id)
    requires done ==> ArchivedRow(list[n].row, c[list[n].id], removed, live)
    ensures OpenArchived(a, c, list, n + 1, removed, live, ok && done)
  {
    ReworkStep(a, b, c, ids, list, n);
  }

  lemma FrozenStep(a: Table, b: Table, c: Table, ids: set<RowId>, list: seq<Stored>, n: nat, session: SessionId,
                   ok: bool, done: bool)
    requires Lists(a, ids, list) && n < |list| && Frozen(a, b, list, n, session, ok) && ReworkedAt(b, c, list[n].id)
    requires c[list[n].id].session == session && SameButState(list[n].row, c[list[n].id])
    requires (done ==> c[list[n].id].state.Snapshotted?)
    ensures Frozen(a, c, list, n + 1, session, ok && done)
  {
    ReworkStep(a, b, c, ids, list, n);
  }

  /** The window of row `id` was told to close and is expected to vanish, or,
      without a listing, is noted to be closed when the browser is back; a
      window that is not listed is gone. */
  ghost predicate Asked(closing: set<WindowId>, pending: map<WindowId, PendingClose>, sent: seq<Command>,
                        live: Option<seq<Window>>, id: RowId, w: WindowId, deleted: bool) {
    if live.Some? then w in ListedIds(live.value) ==> w in closing && Close(w) in sent
    else w in pending && pending[w] == PendingClose(id, deleted)
  }

  ghost predicate AllAsked(list: seq<Stored>, n: nat, removed: set<WindowId>, closing: set<WindowId>,
                           pending: map<WindowId, PendingClose>, sent: seq<Command>, live: Option<seq<Window>>,
                           deleted: bool) {
    n <= |list| && forall j :: 0 <= j < n && list[j].row.window !in removed ==>
      Asked(closing, pending, sent, live, list[j].id, list[j].row.window, deleted)
  }

  ghost predicate SessionAsked(rows: Table, session: SessionId, removed: set<WindowId>, closing: set<WindowId>,
                               pending: map<WindowId, PendingClose>, sent: seq<Command>, live: Option<seq<Window>>,
                               deleted: bool) {
    forall id :: id in OpenOf(rows, session) && rows[id].window !in removed ==>
      Asked(closing, pending, sent, live, id, rows[id].window, deleted)
  }

  /** The commands sent close windows of the session and do nothing else. */
  ghost predicate ClosesOnly(sent: seq<Command>, rows: Table, session: SessionId) {
    forall c :: c in sent ==> c.Close? && OwnedBy(rows, c.window, session)
  }

  ghost predicate OnlyAbout(w: WindowId, closing: set<WindowId>, pending: map<WindowId, PendingClose>,
                            closing': set<WindowId>, pending': map<WindowId, PendingClose>) {
    forall v :: v != w ==>
      && (v in closing' <==> v in closing) && (v in pending' <==> v in pending)
      && (v in pending ==> pending'[v] == pending[v])
  }

  /** The first `n` open rows of the session were gone through. */
  ghost predicate Archiving(rows: Table, rows': Table, session: SessionId, list: seq<Stored>, n: nat,
                            removed: set<WindowId>, live: Option<seq<Window>>, closing: set<WindowId>,
                            pending: map<WindowId, PendingClose>, sent: seq<Command>, ok: bool) {
    && OpenArchived(rows, rows', list, n, removed, live, ok) && ClosesOnly(sent, rows, session)
    && (ok ==> AllAsked(list, n, removed, closing, pending, sent, live, false))
  }

  lemma ArchivingStep(a: Table, b: Table, c: Table, session: SessionId, list: seq<Stored>, n: nat,
                      removed: set<WindowId>, live: Option<seq<Window>>, closing: set<WindowId>, pending: map<WindowId,
                      PendingClose>, sent: seq<Command>, closing': set<WindowId>, pending': map<WindowId, PendingClose>,
                      more: seq<Command>, ok: bool, done: bool)
    requires WellFormed(a) && Lists(a, OpenOf(a, session), list) && n < |list|
    requires Archiving(a, b, session, list, n, removed, live, closing, pending, sent, ok)
    requires ReworkedAt(b, c, list[n].id)
    requires OnlyAbout(list[n].row.window, closing, pending, closing', pending') && more <= [Close(list[n].row.window)]
    requires done ==> ArchivedRow(list[n].row, c[list[n].id], removed, live)
    requires done && list[n].row.window !in removed ==>
              Asked(closing', pending', more, live, list[n].id, list[n].row.window, false)
    ensures Archiving(a, c, session, list, n + 1, removed, live, closing', pending', sent + more, ok && done)
  {
    OpenStep(a, b, c, OpenOf(a, session), list, n, removed, live, ok, done);
    OwnWindowOnly(a, session, list, n, sent, more);
    if done {
      AskedLater(closing', pending', sent, more, live, list[n].id, list[n].row.window, false);
      AskedStep(a, session, list, n, removed, closing, pending, sent, closing', pending', sent + more, live, false);
    }
  }

  lemma OwnWindowOnly(rows: Table, session: SessionId, list: seq<Stored>, n: nat, sent: seq<Command>,
                      more: seq<Command>)
    requires Lists(rows, OpenOf(rows, session), list) && n < |list| && ClosesOnly(sent, rows, session)
    requires more <= [Close(list[n].row.window)]
    ensures ClosesOnly(sent + more, rows, session)
  {
    assert list[n].id in OpenOf(rows, session) && Holds(rows[list[n].id], list[n].row.window);
    assert forall c :: c in more ==> c == Close(list[n].row.window);
  }

  lemma AskedLater(closing: set<WindowId>, pending: map<WindowId, PendingClose>, sent: seq<Command>, more: seq<Command>,
                   live: Option<seq<Window>>, id: RowId, w: WindowId, deleted: bool)
    ensures Asked(closing, pending, more, live, id, w, deleted) ==>
              Asked(closing, pending, sent + more, live, id, w, deleted)
  {
  }

  /** The row snapshotted with those tabs, or given its window back since. */
  ghost predicate ClosedRow(row: Row, row': Row, tabs: seq<SavedTab>) {
    SameButTabs(row, row') && row'.tabs == tabs && (row'.state.Snapshotted? || Holds(row', row.window))
  }

  /** Archiving failed: the row is as it was, or its last tabs were kept and it
      may have its window back. */
  ghost predicate KeptOrGivenBack(row: Row, row': Row, live: Option<seq<Window>>) {
    row' == row || ClosedRow(row, row', LastTabs(row, live))
  }

  lemma AskedEverywhere(rows: Table, session: SessionId, list: seq<Stored>, removed: set<WindowId>,
                        closing: set<WindowId>, pending: map<WindowId, PendingClose>, sent: seq<Command>,
                        live: Option<seq<Window>>, deleted: bool)
    requires Lists(rows, OpenOf(rows, session), list)
    ensures AllAsked(list, |list|, removed, closing, pending, sent, live, deleted) ==>
              SessionAsked(rows, session, removed, closing, pending, sent, live, deleted)
  {
  }

  lemma AskedStep(rows: Table, session: SessionId, list: seq<Stored>, n: nat, removed: set<WindowId>,
                  closing: set<WindowId>, pending: map<WindowId, PendingClose>, sent: seq<Command>,
                  closing': set<WindowId>, pending': map<WindowId, PendingClose>, sent': seq<Command>,
                  live: Option<seq<Window>>, deleted: bool)
    requires WellFormed(rows) && Lists(rows, OpenOf(rows, session), list) && n < |list|
    requires OnlyAbout(list[n].row.window, closing, pending, closing', pending') && sent <= sent'
    requires list[n].row.window !in removed ==>
              Asked(closing', pending', sent', live, list[n].id, list[n].row.window, deleted)
    ensures AllAsked(list, n, removed, closing, pending, sent, live, deleted) ==>
              AllAsked(list, n + 1, removed, closing', pending', sent', live, deleted)
  {
    assert forall j :: 0 <= j < n ==> list[j].row.window != list[n].row.window;
    assert forall c :: c in sent ==> c in sent';
  }

  /** What was sent since `n` commands, once `more` are sent. */
  lemma SentMore(commands: seq<Command>, n: nat, more: seq<Command>)
    requires n <= |commands|
    ensures (commands + more)[n..] == commands[n..] + more
  {
  }

  /** Closing windows late: every listed window noted to be closed was told to,
      each archived row among them holds a last snapshot, nothing else was sent
      and no other row changed. */
  ghost predicate ClosedLate(rows: Table, rows': Table, pending: map<WindowId, PendingClose>, rest: set<WindowId>,
                             windows: seq<Window>, closing: set<WindowId>, sent: seq<Command>, ok: bool) {
    && Keeps(rows, rows') && Owned(rows') <= Owned(rows) && rows'.Keys == rows.Keys
    && (forall c :: c in sent ==> c.Close? && c.window in pending && c.window in ListedIds(windows))
    && (forall id :: id in rows && id !in ArchivedIn(pending) ==> rows'[id] == rows[id])
    && (ok ==>
          forall w :: w in pending && w !in rest && w in ListedIds(windows) ==>
            && w in closing && Close(w) in sent
            && (!pending[w].deleted && pending[w].row in rows && Savable(FirstListed(windows, w).value) ==>
                  rows'[pending[w].row].state.Snapshotted?))
  }

  lemma NothingClosedLate(rows: Table, rows': Table, pending: map<WindowId, PendingClose>, windows: seq<Window>,
                          closing: set<WindowId>, sent: seq<Command>, ok: bool)
    requires ClosedLate(rows, rows', pending, {}, windows, closing, sent, ok)
    ensures pending == map[] ==> rows' == rows
  {
  }

  /** The rows whose windows are to be closed after a last snapshot. */
  function ArchivedIn(pending: map<WindowId, PendingClose>): set<RowId> {
    set w | w in pending && !pending[w].deleted :: pending[w].row
  }

  lemma ClosedLateOne(a: Table, b: Table, c: Table, pending: map<WindowId, PendingClose>, rest: set<WindowId>,
                      windows: seq<Window>, w: WindowId, closing: set<WindowId>, sent: seq<Command>,
                      closing': set<WindowId>, sent': seq<Command>, ok: bool, done: bool)
    requires ClosedLate(a, b, pending, rest, windows, closing, sent, ok) && w in rest && w in pending
    requires OneClosedLate(b, c, pending[w], windows, w, closing', sent', done)
    requires OnlyAbout(w, closing, map[], closing', map[])
    ensures ClosedLate(a, c, pending, rest - {w}, windows, closing', sent + sent', ok && done)
  {
  }

  /** The same for one window. */
  ghost predicate OneClosedLate(rows: Table, rows': Table, op: PendingClose, windows: seq<Window>, w: WindowId,
                                closing: set<WindowId>, sent: seq<Command>, ok: bool) {
    && Keeps(rows, rows') && Owned(rows') <= Owned(rows) && rows'.Keys == rows.Keys
    && sent == (if w in ListedIds(windows) then [Close(w)] else [])
    && (forall id :: id in rows && (op.deleted || id != op.row) ==> rows'[id] == rows[id])
    && (forall id :: id in rows ==> rows'[id] == rows[id] || rows'[id].state.Snapshotted?)
    && (ok && w in ListedIds(windows) ==>
          && w in closing
          && (!op.deleted && op.row in rows && Savable(FirstListed(windows, w).value) ==>
                && rows'[op.row].state.Snapshotted?
                && rows'[op.row].tabs == Merged(FirstListed(windows, w).value, rows[op.row].tabs)))
  }

  lemma ArchivedBoth(a: Table, b: Table, c: Table, session: SessionId, removed: set<WindowId>,
                     live: Option<seq<Window>>, rows: seq<Stored>, list: seq<Stored>, ok: bool, rest: bool)
    requires Lists(a, OpenOf(a, session), rows) && OpenArchived(a, b, rows, |rows|, removed, live, ok)
    requires Frozen(b, c, list, |list|, session, rest)
    requires rest ==> Lists(b, RestorableOf(b, session), list)
    requires forall i :: 0 <= i < |list| ==> list[i].id in RestorableOf(b, session)
    ensures Keeps(a, c) && Owned(c) <= Owned(a) && OthersSame(a, c, session)
    ensures ok && rest ==> Archived(a, c, session, removed, live)
  {
    forall id | ok && rest && id in a && a[id].session == session
      ensures if a[id].state.Open? then ArchivedRow(a[id], c[id], removed, live)
              else c[id] == a[id].(state := Snapshotted)
    {
      if a[id].state.Open? {
        assert id in OpenOf(a, session);
        var i :| 0 <= i < |rows| && rows[i].id == id;
        assert ArchivedRow(rows[i].row, b[id], removed, live);
      } else {
        assert forall i :: 0 <= i < |rows| ==> rows[i].id in OpenOf(a, session) && rows[i].id != id;
      }
      if !b[id].state.Open? {
        assert id in RestorableOf(b, session);
      } else {
        assert forall i :: 0 <= i < |list| ==> list[i].id in RestorableOf(b, session) && list[i].id != id;
      }
    }
  }

  lemma SnapshotEffects(rows: Table, id: RowId, tabs: seq<SavedTab>, at: Time, from: Option<Window>)
    requires WellFormed(rows) && id in rows && (from.Some? ==> Savable(from.value)) && tabs == TabsFrom(rows, id, from)
    ensures var rows' := WithSnapshot(rows, id, tabs, at);
            && ReworkedAt(rows, rows', id)
            && forall w :: Holds(rows[id], w) ==> w !in Owned(rows')
  {
    var rows' := WithSnapshot(rows, id, tabs, at);
    ReleaseEffects(rows, rows');
    forall w | Holds(rows[id], w) ensures w !in Owned(rows') {
      assert forall j :: j in rows && j != id && rows[j].state.Open? ==> rows[j].window != w;
    }
  }

  ghost predicate OneRowEach(matches: map<WindowId, RowId>) {
    forall v, w :: v in matches && w in matches && v != w ==> matches[v] != matches[w]
  }

  /** The matched rows in `rest` are not open and their windows not owned. */
  ghost predicate CanReopen(rows: Table, matches: map<WindowId, RowId>, rest: set<WindowId>) {
    forall w :: w in rest && w in matches ==> matches[w] in rows && !rows[matches[w]].state.Open? && w !in Owned(rows)
  }

  lemma MissingEffects(rows: Table, live: set<WindowId>)
    ensures Keeps(rows, MissingExcept(rows, live)) && Owned(MissingExcept(rows, live)) == Owned(rows) * live
  {
    var rows' := MissingExcept(rows, live);
    forall w | w in Owned(rows) * live ensures w in Owned(rows') {
      var id :| id in rows && rows[id].state.Open? && rows[id].window == w;
      assert rows'[id] == rows[id];
    }
  }

  lemma CanReopenRest(rows: Table, rows': Table, matches: map<WindowId, RowId>, rest: set<WindowId>, w: WindowId,
                      at: Time)
    requires CanReopen(rows, matches, rest) && w in rest && w in matches
    requires OneRowEach(matches)
    requires rows' == rows || (rows' == WithReopened(rows, matches[w], w, at) && Owned(rows') == Owned(rows) + {w})
    ensures CanReopen(rows', matches, rest - {w})
  {
  }

  lemma KeepsTwice(a: Table, b: Table, c: Table)
    requires Keeps(a, b) && Keeps(b, c)
    ensures Keeps(a, c)
  {
  }

  /** A row archived while the browser was away and reopened since, whose old
      window is still listed with something to save: the late closing
      snapshots the row and so takes its new window from it. */
  ghost predicate TakesReopened(rows: Table, op: PendingClose, windows: seq<Window>, w: WindowId) {
    && !op.deleted && op.row in rows && rows[op.row].state.Open?
    && FirstListed(windows, w).Some? && Savable(FirstListed(windows, w).value)
  }

  lemma LateCloseTakes(rows: Table, op: PendingClose, windows: seq<Window>, w: WindowId, at: Time)
    requires FirstListed(windows, w).Some? && !op.deleted
    ensures var v := FirstListed(windows, w).value;
            var rows' := if op.row in rows && Savable(v) then
                           WithSnapshot(rows, op.row, Merged(v, rows[op.row].tabs), at)
                         else rows;
            StillOpen(rows, rows') <==> !TakesReopened(rows, op, windows, w)
  {
  }

  lemma FlushEffects(rows: Table, rows': Table, closed: set<WindowId>, all: bool)
    requires PartlyFlushed(rows, rows', closed, all)
    ensures Keeps(rows, rows')
  {
  }
}
