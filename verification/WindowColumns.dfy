/** What the columns of a row tell about its history: whose it is never changes,
    which window it holds and when it was last focused or saved is what the last
    change of that kind said. */
module WindowColumns {
  import opened BrowserTypes
  import opened BrowserTabs
  import opened WindowTable
  import opened WindowHistory

  // --- one change -----------------------------------------------------------------

  /** The change says when the row was last focused. */
  predicate Refocuses(l: Ledger, c: Change, id: RowId)
    requires id in l.rows
  {
    match c
    case Focused(w, _) => w != "" && Holds(l.rows[id], w)
    case Reopened(j, w, _) => j == id && w != ""
    case _ => false
  }

  /** The change says when the row was last saved. */
  predicate Saves(l: Ledger, c: Change, id: RowId)
    requires id in l.rows
  {
    match c
    case Saved(live, _) => live.id != "" && Holds(l.rows[id], live.id)
    case Snapshot(j, _, _) => j == id
    case _ => false
  }

  /** The time the change enters. */
  function At(c: Change): Time
    requires c.Focused? || c.Reopened? || c.Saved? || c.Snapshot?
  {
    c.at
  }

  /** The change takes the row's window away. */
  predicate Releases(l: Ledger, c: Change, id: RowId)
    requires id in l.rows
  {
    match c
    case LeftOut(listed) => l.rows[id].state.Open? && l.rows[id].window !in listed
    case Lost(w) => w != "" && Holds(l.rows[id], w)
    case Snapshot(j, _, _) => j == id
    case _ => false
  }

  predicate Opens(c: Change, id: RowId) {
    c.Reopened? && c.id == id && c.window != ""
  }

  /** A row is in the same session, was focused and saved when the last such
      change says, and holds the window it was last opened in until that is
      taken away. */
  lemma ColumnsAfter(l: Ledger, c: Change, id: RowId)
    requires Permitted(l, c) && Numbered(l) && id in l.rows && id in Apply(l, c).rows
    ensures var row, row' := l.rows[id], Apply(l, c).rows[id];
            && row'.session == row.session
            && row'.focusedAt == (if Refocuses(l, c, id) then At(c) else row.focusedAt)
            && row'.snapshotAt == (if Saves(l, c, id) then At(c) else row.snapshotAt)
            && row'.window == (if Opens(c, id) then c.window else if Releases(l, c, id) then "" else row.window)
            && row'.state == (if Opens(c, id) then Open
                              else if c.Snapshot? && c.id == id then Snapshotted
                              else if Releases(l, c, id) then Missing else row.state)
  {
  }

  /** A row comes by being added, under the next number, and goes by being
      forgotten with its window or deleted, by itself or with its session. */
  lemma RowsComeAndGo(l: Ledger, c: Change, id: RowId)
    requires Permitted(l, c) && Numbered(l)
    ensures id !in l.rows ==> (id in Apply(l, c).rows <==> c.Added? && id == l.nextId)
    ensures c.Added? ==> Apply(l, c).rows[l.nextId] == c.row && Apply(l, c).nextId == l.nextId + 1
    ensures id in l.rows ==> (id !in Apply(l, c).rows <==> Deletes(l, c, id) || c == Emptied(id))
  {
  }

  /** Its tabs change only by a merge with what was listed, by tabs that were
      opened, and by holding one more. */
  lemma TabsAfter(l: Ledger, c: Change, id: RowId)
    requires Permitted(l, c) && Numbered(l) && id in l.rows && id in Apply(l, c).rows
    ensures var tabs, tabs' := l.rows[id].tabs, Apply(l, c).rows[id].tabs;
            tabs' == match c
                     case Saved(live, _) => if Saves(l, c, id) then Merged(live, tabs) else tabs
                     case Snapshot(j, from, _) => if j == id && from.Some? then Merged(from.value, tabs) else tabs
                     case Loaded(j, loaded, _) => if j == id then Released(tabs, loaded) else tabs
                     case Held(j, tab) => if j == id then tabs + [tab] else tabs
                     case _ => tabs
  {
  }

  /** Loading leaves every tab where it was, pending exactly if it was and did not
      load. */
  lemma {:induction false} ReleasedAt(tabs: seq<SavedTab>, loaded: seq<bool>, k: nat)
    requires |loaded| == |tabs| && k < |tabs|
    ensures |Released(tabs, loaded)| == |tabs|
    ensures var t := Released(tabs, loaded)[k];
            && t.pending == (tabs[k].pending && !loaded[k])
            && t.(pending := tabs[k].pending) == tabs[k]
  {
    var n := |tabs| - 1;
    ReleasedLength(tabs[..n], loaded[..n]);
    if k < n {
      ReleasedAt(tabs[..n], loaded[..n], k);
      assert Released(tabs, loaded)[k] == Released(tabs[..n], loaded[..n])[k];
    }
  }

  /** The opened tabs are those that loaded, each once, in their order. */
  lemma {:induction false} OpeningsOf(w: WindowId, tabs: seq<SavedTab>, loaded: seq<bool>) returns (from: seq<nat>)
    requires |loaded| == |tabs|
    ensures |from| == |Openings(w, tabs, loaded)|
    ensures Increasing(from)
    ensures forall i :: 0 <= i < |from| ==> from[i] < |tabs| && Openings(w, tabs, loaded)[i] == (w, tabs[from[i]].url)
    ensures forall k :: 0 <= k < |tabs| ==> (loaded[k] <==> k in from)
  {
    from := [];
    if tabs != [] {
      var n := |tabs| - 1;
      var before := OpeningsOf(w, tabs[..n], loaded[..n]);
      from := WithPosition(before, n, loaded[n]);
      PositionAdded(before, n, loaded[n]);
      forall k | 0 <= k < |tabs| ensures loaded[k] <==> k in from {
        if k < n {
          assert loaded[..n][k] == loaded[k];
        }
      }
    }
  }

  // --- whole histories ---------------------------------------------------------------

  /** The row is there from change `i` to the end, so it was all along. */
  lemma StaysUntil(log: seq<Change>, i: nat, n: nat, id: RowId)
    requires Legal(log) && i <= n <= |log| && id in Replay(log[..i]).rows && id in Replay(log).rows
    ensures id in Replay(log[..n]).rows
  {
    if id !in Replay(log[..n]).rows {
      NumberStays(log, i, n, id);
      GoneAtTheEnd(log, n, id);
    }
  }

  lemma {:induction false} NumberStays(log: seq<Change>, i: nat, n: nat, id: RowId)
    requires Legal(log) && i <= n <= |log| && id in Replay(log[..i]).rows
    ensures id < Replay(log[..n]).nextId
    decreases n
  {
    if i < n {
      NumberStays(log, i, n - 1, id);
      ChangeAt(log, n - 1);
    } else {
      PrefixIsLegal(log, i);
      AlwaysWellFormed(log[..i]);
    }
  }

  /** Row `id` is there after `i` changes and at the end. */
  ghost predicate Lasts(log: seq<Change>, i: nat, id: RowId) {
    Legal(log) && i <= |log| && id in Replay(log[..i]).rows && id in Replay(log).rows
  }

  lemma LastsOn(log: seq<Change>, i: nat, id: RowId)
    requires Lasts(log, i, id) && i < |log|
    ensures Lasts(log, i + 1, id)
    ensures Permitted(Replay(log[..i]), log[i]) && Numbered(Replay(log[..i]))
    ensures Replay(log[..i + 1]) == Apply(Replay(log[..i]), log[i])
  {
    StaysUntil(log, i, i + 1, id);
    ChangeAt(log, i);
  }

  /** A row never changes its session. */
  lemma {:induction false} SessionIsForGood(log: seq<Change>, i: nat, id: RowId)
    requires Lasts(log, i, id)
    ensures Replay(log).rows[id].session == Replay(log[..i]).rows[id].session
    decreases |log| - i
  {
    assert log[..|log|] == log;
    if i < |log| {
      LastsOn(log, i, id);
      ColumnsAfter(Replay(log[..i]), log[i], id);
      SessionIsForGood(log, i + 1, id);
    }
  }

  ghost predicate RefocusedAt(log: seq<Change>, k: nat, id: RowId) {
    k < |log| && id in Replay(log[..k]).rows && Refocuses(Replay(log[..k]), log[k], id)
  }

  ghost predicate SavedAt(log: seq<Change>, k: nat, id: RowId) {
    k < |log| && id in Replay(log[..k]).rows && Saves(Replay(log[..k]), log[k], id)
  }

  /** When a row was last focused is what the last change that focused or
      reopened it says. */
  lemma {:induction false} FocusTimeIsTheLast(log: seq<Change>, i: nat, id: RowId) returns (k: nat)
    requires Lasts(log, i, id)
    ensures i <= k <= |log| && forall j :: k < j < |log| ==> !RefocusedAt(log, j, id)
    ensures if k < |log| then RefocusedAt(log, k, id) && Replay(log).rows[id].focusedAt == At(log[k])
            else && (forall j :: i <= j < |log| ==> !RefocusedAt(log, j, id))
                 && Replay(log).rows[id].focusedAt == Replay(log[..i]).rows[id].focusedAt
    decreases |log| - i
  {
    assert log[..|log|] == log;
    k := |log|;
    if i < |log| {
      LastsOn(log, i, id);
      ColumnsAfter(Replay(log[..i]), log[i], id);
      k := FocusTimeIsTheLast(log, i + 1, id);
      if k == |log| && RefocusedAt(log, i, id) {
        k := i;
      }
    }
  }

  /** When a row was last saved is what the last change that saved it says. */
  lemma {:induction false} SnapshotTimeIsTheLast(log: seq<Change>, i: nat, id: RowId) returns (k: nat)
    requires Lasts(log, i, id)
    ensures i <= k <= |log| && forall j :: k < j < |log| ==> !SavedAt(log, j, id)
    ensures if k < |log| then SavedAt(log, k, id) && Replay(log).rows[id].snapshotAt == At(log[k])
            else && (forall j :: i <= j < |log| ==> !SavedAt(log, j, id))
                 && Replay(log).rows[id].snapshotAt == Replay(log[..i]).rows[id].snapshotAt
    decreases |log| - i
  {
    assert log[..|log|] == log;
    k := |log|;
    if i < |log| {
      LastsOn(log, i, id);
      ColumnsAfter(Replay(log[..i]), log[i], id);
      k := SnapshotTimeIsTheLast(log, i + 1, id);
      if k == |log| && SavedAt(log, i, id) {
        k := i;
      }
    }
  }

  ghost predicate MovedAt(log: seq<Change>, k: nat, id: RowId) {
    k < |log| && id in Replay(log[..k]).rows && (Opens(log[k], id) || Releases(Replay(log[..k]), log[k], id))
  }

  /** A row holds the window it was last reopened in, unless that was taken away
      since. */
  lemma {:induction false} WindowIsTheLast(log: seq<Change>, i: nat, id: RowId) returns (k: nat)
    requires Lasts(log, i, id)
    ensures i <= k <= |log| && forall j :: k < j < |log| ==> !MovedAt(log, j, id)
    ensures if k < |log| then
              MovedAt(log, k, id) &&
              if Opens(log[k], id) then Holds(Replay(log).rows[id], log[k].window)
              else !Replay(log).rows[id].state.Open?
            else
              && (forall j :: i <= j < |log| ==> !MovedAt(log, j, id))
              && Replay(log).rows[id].window == Replay(log[..i]).rows[id].window
              && Replay(log).rows[id].state == Replay(log[..i]).rows[id].state
    decreases |log| - i
  {
    assert log[..|log|] == log;
    k := |log|;
    if i < |log| {
      LastsOn(log, i, id);
      ColumnsAfter(Replay(log[..i]), log[i], id);
      k := WindowIsTheLast(log, i + 1, id);
      if k == |log| && MovedAt(log, i, id) {
        k := i;
      }
    }
  }

  // --- recency ------------------------------------------------------------------------

  lemma TimeAndFocusGrow(l: Ledger, c: Change, id: RowId)
    requires Permitted(l, c) && Numbered(l) && Dated(l) && id in l.rows && id in Apply(l, c).rows
    ensures l.rows[id].focusedAt <= Apply(l, c).rows[id].focusedAt
  {
  }

  /** The focus time of a row never goes back. */
  lemma {:induction false} FocusNeverGoesBack(log: seq<Change>, i: nat, id: RowId)
    requires Lasts(log, i, id)
    ensures Replay(log[..i]).rows[id].focusedAt <= Replay(log).rows[id].focusedAt
    decreases |log| - i
  {
    assert log[..|log|] == log;
    if i < |log| {
      LastsOn(log, i, id);
      PrefixIsLegal(log, i);
      AlwaysDated(log[..i]);
      TimeAndFocusGrow(Replay(log[..i]), log[i], id);
      FocusNeverGoesBack(log, i + 1, id);
    }
  }

  lemma FocusedNow(l: Ledger, w: WindowId, at: Time, id: RowId, other: RowId)
    requires Permitted(l, Focused(w, at)) && WellFormed(l.rows) && Dated(l) && w != ""
    requires id in l.rows && Holds(l.rows[id], w) && other in l.rows && other != id
    ensures var rows' := Apply(l, Focused(w, at)).rows;
            id in rows' && other in rows' && rows'[other].focusedAt <= at == rows'[id].focusedAt
  {
  }

  lemma NotRefocused(log: seq<Change>, i: nat, id: RowId)
    requires Lasts(log, i, id) && forall j :: i <= j < |log| ==> !RefocusedAt(log, j, id)
    ensures Replay(log).rows[id].focusedAt == Replay(log[..i]).rows[id].focusedAt
  {
    var k := FocusTimeIsTheLast(log, i, id);
  }

  /** Once window `w` got the focus, its row `id` counts as more recent than every
      other row that was not focused or reopened since. */
  lemma FocusedIsMostRecent(log: seq<Change>, k: nat, w: WindowId, at: Time, id: RowId, other: RowId)
    requires Lasts(log, k, id) && k < |log| && log[k] == Focused(w, at) && w != ""
    requires Holds(Replay(log[..k]).rows[id], w) && Lasts(log, k, other) && other != id
    requires forall j :: k < j < |log| ==> !RefocusedAt(log, j, other)
    ensures Replay(log).rows[other].focusedAt <= at <= Replay(log).rows[id].focusedAt
  {
    LastsOn(log, k, id);
    LastsOn(log, k, other);
    PrefixIsLegal(log, k);
    AlwaysDated(log[..k]);
    AlwaysWellFormed(log[..k]);
    FocusedNow(Replay(log[..k]), w, at, id, other);
    FocusNeverGoesBack(log, k + 1, id);
    NotRefocused(log, k + 1, other);
  }
}
