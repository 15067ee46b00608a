/** What every history of the window table guarantees: one owner a window, no
    saved row lost without cause, no pending tab dropped. */
module WindowHistory {
  import opened BrowserTypes
  import opened BrowserTabs
  import opened WindowTable

  lemma {:induction false} PrefixIsLegal(log: seq<Change>, n: nat)
    requires Legal(log) && n <= |log|
    ensures Legal(log[..n])
  {
    if n < |log| {
      var init := log[..|log| - 1];
      PrefixIsLegal(init, n);
      assert init[..n] == log[..n];
    } else {
      assert log[..n] == log;
    }
  }

  lemma ReplayAt(log: seq<Change>, n: nat)
    requires n < |log|
    ensures Replay(log[..n + 1]) == Apply(Replay(log[..n]), log[n])
    ensures Legal(log[..n + 1]) <==> Legal(log[..n]) && Permitted(Replay(log[..n]), log[n])
  {
    assert log[..n + 1][..n] == log[..n];
  }

  /** Change `i` of a history was made under its condition. */
  lemma ChangeAt(log: seq<Change>, i: nat)
    requires Legal(log) && i < |log|
    ensures Legal(log[..i]) && Permitted(Replay(log[..i]), log[i]) && Numbered(Replay(log[..i]))
    ensures Replay(log[..i + 1]) == Apply(Replay(log[..i]), log[i])
  {
    PrefixIsLegal(log, i);
    AlwaysWellFormed(log[..i]);
    PrefixIsLegal(log, i + 1);
    ReplayAt(log, i);
  }

  // --- deletions ---------------------------------------------------------------

  /** The changes that may take row `id` away although it has saved tabs. */
  predicate Deletes(l: Ledger, c: Change, id: RowId)
    requires id in l.rows
  {
    match c
    case Forgot(w) => w != "" && Holds(l.rows[id], w)
    case Ejected(j) => j == id
    case SessionDeleted(session) => session == l.rows[id].session
    case _ => false
  }

  /** A row with saved tabs leaves the table only by such a change, and until
      then keeps its session and some saved tabs. */
  lemma SavedRowStays(l: Ledger, c: Change, id: RowId)
    requires Permitted(l, c) && Numbered(l) && id in l.rows && l.rows[id].tabs != []
    ensures id !in Apply(l, c).rows <==> Deletes(l, c, id)
    ensures id in Apply(l, c).rows ==>
              Apply(l, c).rows[id].tabs != [] && Apply(l, c).rows[id].session == l.rows[id].session
  {
    if c.Loaded? && c.id == id {
      ReleasedLength(l.rows[id].tabs, c.loaded);
    }
  }

  /** In every history, a row that had saved tabs after `i` changes and is gone
      at the end was deleted with its session, ejected, or forgotten. */
  lemma {:induction false} DeletionHasCause(log: seq<Change>, i: nat, id: RowId) returns (k: nat)
    requires Legal(log) && i <= |log|
    requires id in Replay(log[..i]).rows && Replay(log[..i]).rows[id].tabs != []
    requires id !in Replay(log).rows
    ensures i <= k < |log| && id in Replay(log[..k]).rows && Deletes(Replay(log[..k]), log[k], id)
    ensures Replay(log[..k]).rows[id].session == Replay(log[..i]).rows[id].session
    decreases |log| - i
  {
    assert log[..|log|] == log;
    ChangeAt(log, i);
    var l := Replay(log[..i]);
    SavedRowStays(l, log[i], id);
    if Deletes(l, log[i], id) {
      k := i;
    } else {
      k := DeletionHasCause(log, i + 1, id);
    }
  }

  lemma {:induction false} ClosedThisConnection(log: seq<Change>, w: WindowId) returns (c: nat)
    requires var l := Replay(log); w in l.closedIn && l.closedIn[w] == l.connection
    ensures c < |log| && log[c] == Closed(w)
    ensures forall i :: c < i < |log| ==> !ChangesConnection(log[i])
  {
    var init := log[..|log| - 1];
    ClosedNoLater(init, w);
    if log[|log| - 1] == Closed(w) {
      c := |log| - 1;
    } else {
      c := ClosedThisConnection(init, w);
    }
  }

  lemma {:induction false} ClosedNoLater(log: seq<Change>, w: WindowId)
    ensures var l := Replay(log); w in l.closedIn ==> l.closedIn[w] <= l.connection
  {
    if log != [] {
      var l, c := Replay(log[..|log| - 1]), log[|log| - 1];
      ClosedNoLater(log[..|log| - 1], w);
      assert Apply(l, c).closedIn == if c.Closed? then l.closedIn[c.window := l.connection] else l.closedIn;
    }
  }

  /** A removal timer takes a row away only in the very connection in which the
      window was closed: nothing connected or disconnected in between. */
  lemma ForgottenInTheSameConnection(log: seq<Change>, k: nat, w: WindowId) returns (c: nat)
    requires Legal(log) && k < |log| && log[k] == Forgot(w)
    ensures c < k && log[c] == Closed(w)
    ensures forall i :: c < i < k ==> !ChangesConnection(log[i])
  {
    ChangeAt(log, k);
    var past := log[..k];
    c := ClosedThisConnection(past, w);
    assert forall i :: c < i < k ==> past[i] == log[i];
  }

  /** After a disconnect or reconnect, no removal scheduled before it takes
      effect: the window must have been closed again since. */
  lemma NoStaleRemoval(log: seq<Change>, d: nat, k: nat, w: WindowId) returns (c: nat)
    requires Legal(log) && d < k < |log| && ChangesConnection(log[d]) && log[k] == Forgot(w)
    ensures d < c < k && log[c] == Closed(w)
  {
    c := ForgottenInTheSameConnection(log, k, w);
  }

  // --- pending tabs ------------------------------------------------------------

  /** The changes after which pending tab `t` of row `id` need not be pending
      any more: its window, or the window it was archived from while the browser
      was away, was listed just before with a live tab that stands for it, or it
      was opened in its window. */
  predicate Frees(l: Ledger, c: Change, id: RowId, t: SavedTab)
    requires id in l.rows
  {
    match c
    case Saved(live, at) => Shown(l.listings, live) && Holds(l.rows[id], live.id) && HasMatch(live.tabs, t.url)
    case Snapshot(j, from, at) =>
      && j == id && from.Some? && Shown(l.listings, from.value) && BelongsTo(l, from.value.id, id)
      && HasMatch(from.value.tabs, t.url)
    case Loaded(j, loaded, since) =>
      j == id && since <= |l.openings| && (l.rows[id].window, t.url) in l.openings[since..]
    case _ => false
  }

  /** The latest listing is what the browser listed last in the history. */
  lemma {:induction false} ShownWasListed(log: seq<Change>, w: Window) returns (k: nat)
    requires Shown(Replay(log).listings, w)
    ensures k < |log| && log[k].Listed? && w in log[k].windows
    ensures forall i :: k < i < |log| ==> !log[i].Listed?
  {
    var n := |log| - 1;
    if log[n].Listed? {
      k := n;
    } else {
      SameListings(Replay(log[..n]), log[n]);
      k := ShownWasListed(log[..n], w);
    }
  }

  lemma SameListings(l: Ledger, c: Change)
    requires !c.Listed?
    ensures Apply(l, c).listings == l.listings
  {
  }

  /** A window is to be closed for a row only if the row owned it when that was
      noted. */
  lemma {:induction false} ToCloseWasOwned(log: seq<Change>, w: WindowId) returns (k: nat)
    requires Legal(log) && w in Replay(log).toClose
    ensures k < |log| && log[k] == CloseNoted(w, Replay(log).toClose[w])
    ensures Replay(log).toClose[w] in Replay(log[..k]).rows && Holds(Replay(log[..k]).rows[Replay(log).toClose[w]], w)
  {
    var n := |log| - 1;
    if log[n].CloseNoted? && log[n].window == w {
      k := n;
    } else {
      SameToClose(Replay(log[..n]), log[n], w);
      k := ToCloseWasOwned(log[..n], w);
      assert log[..n][..k] == log[..k];
    }
  }

  lemma SameToClose(l: Ledger, c: Change, w: WindowId)
    requires !(c.CloseNoted? && c.window == w)
    ensures w in Apply(l, c).toClose <==> w in l.toClose
    ensures w in l.toClose ==> Apply(l, c).toClose[w] == l.toClose[w]
  {
  }

  lemma {:induction false} ReleasedOrOpened(w: WindowId, tabs: seq<SavedTab>, loaded: seq<bool>, t: SavedTab)
    requires |loaded| == |tabs| && t in tabs && t.pending
    ensures t in Released(tabs, loaded) || (w, t.url) in Openings(w, tabs, loaded)
  {
    var n := |tabs| - 1;
    if tabs[n] != t {
      assert t in tabs[..n];
      ReleasedOrOpened(w, tabs[..n], loaded[..n], t);
    }
  }

  lemma {:induction false} ReleasedAddsNoPending(tabs: seq<SavedTab>, loaded: seq<bool>, t: SavedTab)
    requires |loaded| == |tabs| && t.pending
    ensures t in Released(tabs, loaded) ==> t in tabs
  {
    if tabs != [] {
      ReleasedAddsNoPending(tabs[..|tabs| - 1], loaded[..|tabs| - 1], t);
    }
  }

  lemma SavingKeepsPending(l: Ledger, c: Change, id: RowId, t: SavedTab)
    requires c.Saved? || c.Snapshot?
    requires Permitted(l, c) && id in l.rows && t.pending
    ensures id in Apply(l, c).rows
    ensures t in l.rows[id].tabs ==> t in Apply(l, c).rows[id].tabs || Frees(l, c, id, t)
    ensures t in Apply(l, c).rows[id].tabs ==> t in l.rows[id].tabs
  {
    if c.Saved? {
      MergeKeepsPending(c.live, l.rows[id].tabs, t);
    } else if c.from.Some? {
      MergeKeepsPending(c.from.value, l.rows[id].tabs, t);
    }
  }

  lemma LoadingKeepsPending(l: Ledger, c: Change, id: RowId, t: SavedTab)
    requires c.Loaded?
    requires Permitted(l, c) && id in l.rows && t.pending
    ensures id in Apply(l, c).rows
    ensures t in l.rows[id].tabs ==> t in Apply(l, c).rows[id].tabs || Frees(l, c, id, t)
    ensures t in Apply(l, c).rows[id].tabs ==> t in l.rows[id].tabs
  {
    if c.id == id {
      if t in l.rows[id].tabs {
        ReleasedOrOpened(l.rows[id].window, l.rows[id].tabs, c.loaded, t);
      }
      ReleasedAddsNoPending(l.rows[id].tabs, c.loaded, t);
    }
  }

  /** A pending tab stays pending in its row, unless its row goes or the change
      frees it; and only holding a tab makes one pending. */
  lemma PendingStays(l: Ledger, c: Change, id: RowId, t: SavedTab)
    requires Permitted(l, c) && Numbered(l) && id in l.rows && id in Apply(l, c).rows && t.pending
    ensures t in l.rows[id].tabs ==> t in Apply(l, c).rows[id].tabs || Frees(l, c, id, t)
    ensures t in Apply(l, c).rows[id].tabs ==> t in l.rows[id].tabs || c == Held(id, t)
  {
    match c
    case Saved(_, _) => SavingKeepsPending(l, c, id, t);
    case Snapshot(_, _, _) => SavingKeepsPending(l, c, id, t);
    case Loaded(_, _, _) => LoadingKeepsPending(l, c, id, t);
    case _ =>
  }

  lemma GoneForGood(l: Ledger, c: Change, id: RowId)
    requires id < l.nextId && id !in l.rows
    ensures id < Apply(l, c).nextId && id !in Apply(l, c).rows
  {
  }

  lemma {:induction false} GoneAtTheEnd(log: seq<Change>, i: nat, id: RowId)
    requires i <= |log| && id < Replay(log[..i]).nextId && id !in Replay(log[..i]).rows
    ensures id !in Replay(log).rows
    decreases |log| - i
  {
    assert log[..|log|] == log;
    if i < |log| {
      ReplayAt(log, i);
      GoneForGood(Replay(log[..i]), log[i], id);
      GoneAtTheEnd(log, i + 1, id);
    }
  }

  /** In every history, a tab pending in a row after `i` changes is still
      pending in it at the end, unless the row is gone, a live tab of its window
      as just listed stands for it, or opening it succeeded. */
  lemma {:induction false} PendingIsNeverDropped(log: seq<Change>, i: nat, id: RowId, t: SavedTab) returns (k: nat)
    requires Legal(log) && i <= |log| && t.pending
    requires id in Replay(log[..i]).rows && t in Replay(log[..i]).rows[id].tabs
    requires id in Replay(log).rows && t !in Replay(log).rows[id].tabs
    ensures i <= k < |log| && id in Replay(log[..k]).rows && Frees(Replay(log[..k]), log[k], id, t)
    decreases |log| - i
  {
    assert log[..|log|] == log;
    ChangeAt(log, i);
    var l := Replay(log[..i]);
    if id in Apply(l, log[i]).rows {
      PendingStays(l, log[i], id, t);
      if Frees(l, log[i], id, t) {
        k := i;
      } else {
        k := PendingIsNeverDropped(log, i + 1, id, t);
      }
    } else {
      GoneAtTheEnd(log, i + 1, id);
    }
  }
}
