/** What the functions in the contracts of the browser service stand for. */
module BrowserMeaning {
  import opened BrowserTypes
  import opened BrowserTabs
  import opened WindowTable
  import opened BrowserStore
  import opened BrowserDriver
  import opened BrowserEffects
  import opened BrowserRequests
  import Reattach
  import ReattachPicks

  /** Of listed windows with one id the first counts where one is looked for. */
  lemma {:induction false} FirstListedIs(windows: seq<Window>, k: nat)
    requires k < |windows| && forall j :: 0 <= j < k ==> windows[j].id != windows[k].id
    ensures FirstListed(windows, windows[k].id) == Some(windows[k])
  {
    if k > 0 {
      assert windows[1..][k - 1] == windows[k];
      assert forall j :: 0 <= j < k - 1 ==> windows[1..][j] == windows[j + 1];
      FirstListedIs(windows[1..], k - 1);
    }
  }

  /** Where they are indexed by their ids the last counts. */
  lemma {:induction false} LastListedIs(windows: seq<Window>, k: nat)
    requires k < |windows| && forall j :: k < j < |windows| ==> windows[j].id != windows[k].id
    ensures LastListed(windows, windows[k].id) == Some(windows[k])
  {
    if k < |windows| - 1 {
      LastListedIs(windows[..|windows| - 1], k);
    }
  }

  /** The last window listed as focused has the focus. */
  lemma {:induction false} LastFocusIs(windows: seq<Window>, k: nat)
    requires forall j :: k <= j < |windows| ==> !windows[j].focused
    ensures k == 0 ==> LastFocusIn(windows) == ""
    ensures 0 < k <= |windows| && windows[k - 1].focused ==> LastFocusIn(windows) == windows[k - 1].id
  {
    if k < |windows| {
      LastFocusIs(windows[..|windows| - 1], k);
    }
  }

  /** Activated is the live tab at the place of the first saved active tab that
      has one. */
  lemma {:induction false} ActivationIs(tabs: seq<SavedTab>, w: Window, n: nat, k: nat)
    requires k <= n <= |tabs| && forall j :: 0 <= j < k ==> !(tabs[j].active && j < |w.tabs|)
    ensures k == n ==> ActivationOf(tabs, w, n) == []
    ensures k < n && tabs[k].active && k < |w.tabs| ==> ActivationOf(tabs, w, n) == [Activate(w.id, w.tabs[k].id)]
  {
    if n > 0 {
      ActivationIs(tabs, w, n - 1, if k < n then k else n - 1);
    }
  }

  /** Exactly those rows of the list are open. */
  ghost predicate OpenAt(rows: Table, list: seq<Stored>, order: seq<nat>) {
    && Increasing(order) && (forall i :: 0 <= i < |order| ==> order[i] < |list|)
    && forall k :: 0 <= k < |list| ==> (k in order <==> list[k].id in rows && rows[list[k].id].state.Open?)
  }

  lemma OpenOneMore(rows: Table, list: seq<Stored>, chosen: seq<Stored>, order: seq<nat>)
    requires list != [] && OpenAt(rows, list[..|list| - 1], order) && TakenAt(list[..|list| - 1], chosen, order)
    ensures var last := list[|list| - 1];
            var order' := WithPosition(order, |list| - 1, OpenNow(rows, last.id));
            && OpenAt(rows, list, order')
            && TakenAt(list, if OpenNow(rows, last.id) then chosen + [last] else chosen, order')
  {
    var n := |list| - 1;
    PositionAdded(order, n, OpenNow(rows, list[n].id));
    TakenOneMore(list, chosen, order);
    assert forall k :: 0 <= k < n ==> list[..n][k] == list[k];
  }

  /** The windows of a restore keep the order of the rows restored. */
  lemma {:induction false} ChosenInOrder(rows: Table, list: seq<Stored>, n: nat) returns (order: seq<nat>)
    requires n <= |list|
    ensures OpenAt(rows, list[..n], order) && TakenAt(list[..n], Chosen(rows, list, n), order)
  {
    order := [];
    if n > 0 {
      var before := ChosenInOrder(rows, list, n - 1);
      var listed, last := list[..n], list[n - 1];
      assert listed[..n - 1] == list[..n - 1] && listed[n - 1] == last;
      OpenOneMore(rows, listed, Chosen(rows, list, n - 1), before);
      order := WithPosition(before, n - 1, OpenNow(rows, last.id));
      ChosenMore(rows, list, n);
    }
  }

  lemma ChosenMore(rows: Table, list: seq<Stored>, n: nat)
    requires 0 < n <= |list|
    ensures var chosen, last := Chosen(rows, list, n - 1), list[n - 1];
            Chosen(rows, list, n) == if OpenNow(rows, last.id) then chosen + [last] else chosen
  {
  }

  /** A new window is asked to show all saved URLs, in order. */
  lemma SavedUrlsAre(tabs: seq<SavedTab>, k: nat)
    ensures |SavedUrls(tabs)| == |tabs| && (k < |tabs| ==> SavedUrls(tabs)[k] == tabs[k].url)
  {
  }

  /** Rejected are the listed windows that show a key and are neither matched nor
      owned. */
  lemma RejectedIff(windows: seq<Window>, matches: map<WindowId, RowId>, owned: set<WindowId>, id: WindowId)
    ensures id in Rejections(windows, matches, owned) <==>
            id !in matches && id !in owned && exists w :: w in windows && w.id == id && ReattachPicks.ShowsAny(w)
  {
    forall w: Window ensures Reattach.UrlSet(Reattach.WindowUrls(w)) != {} <==> ReattachPicks.ShowsAny(w) {
      ReattachPicks.ShowsSome(w);
    }
  }

  /** Saving what a listing shows changes, if the window has a web tab, exactly
      the row that holds it, in its tabs and its snapshot time. */
  lemma SnapshottingIs(rows: Table, w: Option<Window>, at: Time, id: RowId)
    requires id in rows
    ensures var saves := w.Some? && w.value.id != "" && Holds(rows[id], w.value.id)
                         && exists t :: t in w.value.tabs && t.url.web;
            && Snapshotting(rows, w, at).Keys == rows.Keys
            && Snapshotting(rows, w, at)[id] ==
               if saves then rows[id].(tabs := Merged(w.value, rows[id].tabs), snapshotAt := at) else rows[id]
  {
    if w.Some? {
      SavableIff(w.value);
    }
  }

  lemma SavableIff(w: Window)
    ensures Savable(w) <==> exists t :: t in w.tabs && t.url.web
  {
    var order := WebTabsInOrder(w.tabs);
    if Savable(w) {
      assert order[0] in order && w.tabs[order[0]] in w.tabs;
    }
    if t :| t in w.tabs && t.url.web {
      var k :| 0 <= k < |w.tabs| && w.tabs[k] == t;
      assert k in order;
    }
  }

  /** A request for no session that asks for the attached one is for that; one for
      a session nobody knows is for none. */
  lemma MeantIs(session: SessionId, current: Option<SessionId>, query: SessionQuery)
    ensures query.Unknown? ==> Meant(session, current, query) == 0
    ensures !query.Unknown? && session != 0 ==> Meant(session, current, query) == session
    ensures !query.Unknown? && session == 0 ==>
              Meant(session, current, query) == match current case Some(attached) => attached case None => 0
  {
  }
}
