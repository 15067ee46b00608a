/** A late closing can take a window back: a session archived while the browser
    was away is restored before its old window could be closed, and closing
    that one at the next connection snapshots the row of the restored window. */
module LateClose {
  import opened BrowserTypes
  import opened BrowserTabs
  import opened WindowTable
  import opened BrowserStore
  import opened BrowserDriver
  import opened BrowserEffects
  import opened BrowserService

  /** A session's row in window `w`, and the window `v` it is restored in later,
      at `at`. */
  ghost predicate Case(row: Row, w: Window, v: Window, at: Time) {
    && row.state.Open? && row.window == w.id && w.id != "" && v.id != "" && w.id != v.id && Savable(w)
    && row.snapshotAt <= row.focusedAt <= at
  }

  /** Away, the row of `w` is archived; at the first reconnection the browser
      does not answer at once, then the row is restored in `v`; at the second
      it lists both windows. */
  function History(row: Row, w: Window, v: Window, at: Time): seq<Change> {
    [Connect, Added(row), Disconnect, CloseNoted(w.id, 1), Snapshot(1, None, row.snapshotAt),
     Connect, Listed([w]), Reopened(1, v.id, at), Disconnect, Connect, Listed([w, v])]
  }

  function Reached(row: Row, w: Window, v: Window, at: Time): Ledger {
    Ledger(map[1 := row.(window := v.id, focusedAt := at)], 2, 5, map[], map[w.id := 1], [], [[w], [w, v]], at)
  }

  lemma Extended(log: seq<Change>, c: Change, l: Ledger, l': Ledger)
    requires Legal(log) && Replay(log) == l && Permitted(l, c) && Apply(l, c) == l'
    ensures Legal(log + [c]) && Replay(log + [c]) == l'
  {
    LegalStep(log, c);
  }

  lemma ArchivedAway(row: Row, w: Window, v: Window, at: Time)
    requires Case(row, w, v, at)
    ensures Legal(History(row, w, v, at)[..5])
    ensures Replay(History(row, w, v, at)[..5]) ==
            Ledger(map[1 := row.(state := Snapshotted, window := "")], 2, 2, map[], map[w.id := 1], [], [],
                   row.focusedAt)
  {
    var h := History(row, w, v, at);
    assert h[..5] == [] + [h[0]] + [h[1]] + [h[2]] + [h[3]] + [h[4]];
    var l := EMPTY.(connection := 1);
    Extended([], h[0], EMPTY, l);
    var l1 := l.(rows := map[1 := row], nextId := 2, time := row.focusedAt);
    Extended([] + [h[0]], h[1], l, l1);
    var l2 := l1.(connection := 2);
    Extended([] + [h[0]] + [h[1]], h[2], l1, l2);
    var l3 := l2.(toClose := map[w.id := 1]);
    Extended([] + [h[0]] + [h[1]] + [h[2]], h[3], l2, l3);
    LegalStep([] + [h[0]] + [h[1]] + [h[2]] + [h[3]], h[4]);
  }

  lemma RestoredElsewhere(row: Row, w: Window, v: Window, at: Time)
    requires Case(row, w, v, at)
    ensures Legal(History(row, w, v, at)[..8])
    ensures Replay(History(row, w, v, at)[..8]) == Reached(row, w, v, at).(connection := 3, listings := [[w]])
  {
    var h := History(row, w, v, at);
    var start := h[..5];
    ArchivedAway(row, w, v, at);
    assert h[..8] == start + [h[5]] + [h[6]] + [h[7]];
    var l := Replay(start).(connection := 3);
    Extended(start, h[5], Replay(start), l);
    Extended(start + [h[5]], h[6], l, l.(listings := [[w]]));
    LegalStep(start + [h[5]] + [h[6]], h[7]);
  }

  lemma IsHistory(row: Row, w: Window, v: Window, at: Time)
    requires Case(row, w, v, at)
    ensures Legal(History(row, w, v, at)) && Replay(History(row, w, v, at)) == Reached(row, w, v, at)
  {
    var h := History(row, w, v, at);
    var start := h[..8];
    RestoredElsewhere(row, w, v, at);
    assert h == start + [h[8]] + [h[9]] + [h[10]];
    var l := Replay(start);
    Extended(start, h[8], l, l.(connection := 4));
    Extended(start + [h[8]], h[9], l.(connection := 4), l.(connection := 5));
    LegalStep(start + [h[8]] + [h[9]], h[10]);
  }

  lemma OwnsRestored(row: Row, w: Window, v: Window, at: Time)
    requires Case(row, w, v, at)
    ensures Owned(Replay(History(row, w, v, at)).rows) == {v.id}
  {
    IsHistory(row, w, v, at);
    assert Reached(row, w, v, at).rows[1].state.Open?;
  }

  /** That is a history the table can have; the row owns `v`, which is listed,
      and the snapshot a late closing takes is permitted and takes `v` away. */
  lemma TakesRestoredWindow(row: Row, w: Window, v: Window, at: Time)
    requires Case(row, w, v, at)
    ensures var h := History(row, w, v, at);
            var h' := h + [Snapshot(1, Some(w), at)];
            && Legal(h') && Owned(Replay(h).rows) == {v.id} && Shown(Replay(h).listings, v)
            && Owned(Replay(h').rows) == {} && Replay(h').rows[1].tabs == Merged(w, row.tabs)
  {
    IsHistory(row, w, v, at);
    assert Replay(History(row, w, v, at)).rows[1].state.Open?;
    LegalStep(History(row, w, v, at), Snapshot(1, Some(w), at));
  }

  /** A service can have that history, and then, with nothing failing, the late
      closing of `w` takes the listed window `v` from its row. */
  method CloseAfterRestore(row: Row, w: Window, v: Window, at: Time) returns (s: Service, ok: bool)
    requires Case(row, w, v, at)
    ensures fresh(s) && s.Valid() && s.Latest([w, v]) && History(row, w, v, at) <= s.store.log
    ensures Owned(Replay(History(row, w, v, at)).rows) == {v.id}
    ensures ok && Owned(s.store.rows) == {}
  {
    s := Reconnected(row, w, v, at);
    OwnsRestored(row, w, v, at);
    ghost var before, sent := s.store.rows, |s.driver.commands|;
    ok := s.ClosePending([w, v]);
    WindowTaken(before, s.store.rows, w, v, s.closing, s.driver.commands[sent..]);
  }

  lemma WindowTaken(rows: Table, rows': Table, w: Window, v: Window, closing: set<WindowId>, sent: seq<Command>)
    requires rows.Keys == {1} && Savable(w)
    requires ClosedLate(rows, rows', map[w.id := PendingClose(1, false)], {}, [w, v], closing, sent, true)
    ensures Owned(rows') == {}
  {
    assert [w, v][0] == w;
    assert w.id in ListedIds([w, v]);
    assert FirstListed([w, v], w.id) == Some(w);
  }

  /** A service with that history. */
  method Reconnected(row: Row, w: Window, v: Window, at: Time) returns (s: Service)
    requires Case(row, w, v, at)
    ensures fresh(s) && fresh(s.store) && fresh(s.driver) && s.Valid() && s.connected && s.Reliable()
    ensures s.Latest([w, v])
    ensures s.store.log == History(row, w, v, at) && s.store.rows == Reached(row, w, v, at).rows
    ensures s.pendingClose == map[w.id := PendingClose(1, false)]
  {
    s := new Service(0, false, true);
    IsHistory(row, w, v, at);
    EnterHistory(s.store, History(row, w, v, at), Reached(row, w, v, at));
    EnterListings(s.driver, w, v);
    s.pendingClose, s.connected, s.clock := map[w.id := PendingClose(1, false)], true, at;
  }

  method EnterListings(d: Driver, w: Window, v: Window)
    modifies d
    ensures d.known == {w.id, v.id} == ListedIds([w, v]) && d.announced == {}
    ensures d.listings == [[w], [w, v]] && d.openings == []
  {
    d.known, d.announced, d.listings, d.openings := {w.id, v.id}, {}, [[w], [w, v]], [];
    assert [w, v][0] == w && [w, v][1] == v;
  }

  method EnterHistory(store: Store, log: seq<Change>, l: Ledger)
    requires Legal(log) && Replay(log) == l
    modifies store
    ensures store.Valid() && store.log == log && store.ledger == l
  {
    store.rows, store.nextId, store.log, store.ledger := l.rows, l.nextId, log, l;
    Legally(log, l);
  }

  lemma {:induction false} Legally(log: seq<Change>, l: Ledger)
    requires Legal(log) && Replay(log) == l
    ensures Recounts(log, l)
  {
    if log == [] {
      NothingRecounted();
    } else {
      var n := |log| - 1;
      Legally(log[..n], Replay(log[..n]));
      RecountsMore(log[..n], Replay(log[..n]), log[n]);
      assert log[..n] + [log[n]] == log;
    }
  }
}
