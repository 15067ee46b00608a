/** Tabs as the browser rows save them: which live tab stands for a URL, and
    how a snapshot merges live tabs with the ones still waiting to load. */
module BrowserTabs {
  import opened BrowserTypes

  // --- matching a URL to a tab -----------------------------------------------

  method HasSegmentPrefix(have: seq<string>, want: seq<string>) returns (r: bool)
    ensures r <==> want <= have
  {
    if |have| < |want| {
      return false;
    }
    for i := 0 to |want|
      invariant want[..i] == have[..i]
    {
      if have[i] != want[i] {
        return false;
      }
    }
    return true;
  }

  /** A URL names a place of its own when it has a host and a path. */
  predicate Addressed(url: Url) {
    url.key.Some? && url.key.value.segments != []
  }

  /** `have` lies at or below the place `want` names. */
  predicate Covers(have: Url, want: Url) {
    && Addressed(want) && have.key.Some?
    && have.key.value.host == want.key.value.host
    && want.key.value.segments <= have.key.value.segments
  }

  predicate SamePlace(have: Url, want: Url) {
    Covers(have, want) && |have.key.value.segments| == |want.key.value.segments|
  }

  predicate HasMatch(tabs: seq<Tab>, url: Url) {
    exists i :: 0 <= i < |tabs| && Covers(tabs[i].url, url)
  }

  /** Tab `i` is the one to use: the first at the same place, or, when there is
      none, the first below it. */
  predicate BestMatch(tabs: seq<Tab>, url: Url, i: nat) {
    && i < |tabs| && Covers(tabs[i].url, url)
    && (forall j :: 0 <= j < i ==> !SamePlace(tabs[j].url, url))
    && (!SamePlace(tabs[i].url, url) ==>
          && (forall j :: 0 <= j < |tabs| ==> !SamePlace(tabs[j].url, url))
          && (forall j :: 0 <= j < i ==> !Covers(tabs[j].url, url)))
  }

  method MatchTab(tabs: seq<Tab>, url: Url) returns (found: bool, best: Tab, ghost at: nat)
    ensures found <==> HasMatch(tabs, url)
    ensures found ==> BestMatch(tabs, url, at) && best == tabs[at]
  {
    found, best, at := false, Tab("", url, "", false, false), 0;
    if !Addressed(url) {
      return;
    }
    for i := 0 to |tabs|
      invariant found ==> at < i && best == tabs[at] && Covers(best.url, url)
      invariant found ==> forall j :: 0 <= j < at ==> !Covers(tabs[j].url, url)
      invariant !found ==> forall j :: 0 <= j < i ==> !Covers(tabs[j].url, url)
      invariant forall j :: 0 <= j < i ==> !SamePlace(tabs[j].url, url)
    {
      var t := tabs[i];
      if t.url.key.None? || t.url.key.value.host != url.key.value.host {
        continue;
      }
      var below := HasSegmentPrefix(t.url.key.value.segments, url.key.value.segments);
      if !below {
        continue;
      }
      if |t.url.key.value.segments| == |url.key.value.segments| {
        return true, t, i;
      }
      if !found {
        found, best, at := true, t, i;
      }
    }
  }

  // --- saved tabs -------------------------------------------------------------

  function AsSaved(t: Tab): SavedTab {
    SavedTab(t.url, t.title, t.active, t.pinned, false)
  }

  /** The web tabs among `tabs`, in order. */
  function WebTabs(tabs: seq<Tab>): seq<SavedTab> {
    if tabs == [] then []
    else WebTabs(tabs[..|tabs| - 1]) + if tabs[|tabs| - 1].url.web then [AsSaved(tabs[|tabs| - 1])] else []
  }

  method SavedTabs(w: Window) returns (saved: seq<SavedTab>)
    ensures saved == WebTabs(w.tabs)
  {
    saved := [];
    for i := 0 to |w.tabs|
      invariant saved == WebTabs(w.tabs[..i])
    {
      assert w.tabs[..i + 1][..i] == w.tabs[..i];
      if !w.tabs[i].url.web {
        continue;
      }
      saved := saved + [AsSaved(w.tabs[i])];
    }
    assert w.tabs[..|w.tabs|] == w.tabs;
  }

  /** The pending ones among `saved` that no live tab stands for. */
  function StillPending(live: seq<Tab>, saved: seq<SavedTab>): seq<SavedTab> {
    if saved == [] then []
    else
      var t := saved[|saved| - 1];
      StillPending(live, saved[..|saved| - 1]) + if t.pending && !HasMatch(live, t.url) then [t] else []
  }

  /** A window is worth saving when it shows a web tab. */
  predicate Savable(w: Window) {
    WebTabs(w.tabs) != []
  }

  function Merged(w: Window, saved: seq<SavedTab>): seq<SavedTab> {
    if Savable(w) then WebTabs(w.tabs) + StillPending(w.tabs, saved) else saved
  }

  method MergeTabs(w: Window, saved: seq<SavedTab>) returns (tabs: seq<SavedTab>, usable: bool)
    ensures usable == Savable(w) && tabs == Merged(w, saved)
  {
    tabs := SavedTabs(w);
    if |tabs| == 0 {
      return saved, false;
    }
    ghost var live := tabs;
    for i := 0 to |saved|
      invariant tabs == live + StillPending(w.tabs, saved[..i])
    {
      assert saved[..i + 1][..i] == saved[..i];
      if !saved[i].pending {
        continue;
      }
      var ok, _, _ := MatchTab(w.tabs, saved[i].url);
      if !ok {
        tabs := tabs + [saved[i]];
      }
    }
    assert saved[..|saved|] == saved;
    usable := true;
  }

  predicate AnyPending(tabs: seq<SavedTab>) {
    exists i :: 0 <= i < |tabs| && tabs[i].pending
  }

  function PendingOf(tabs: seq<SavedTab>): seq<SavedTab> {
    if tabs == [] then []
    else PendingOf(tabs[..|tabs| - 1]) + if tabs[|tabs| - 1].pending then [tabs[|tabs| - 1]] else []
  }

  method PendingTabs(tabs: seq<SavedTab>) returns (pending: seq<SavedTab>)
    ensures pending == PendingOf(tabs)
  {
    pending := [];
    for i := 0 to |tabs|
      invariant pending == PendingOf(tabs[..i])
    {
      assert tabs[..i + 1][..i] == tabs[..i];
      if tabs[i].pending {
        pending := pending + [tabs[i]];
      }
    }
    assert tabs[..|tabs|] == tabs;
  }

  predicate HasSaved(tabs: seq<SavedTab>, url: Url) {
    exists i :: 0 <= i < |tabs| && Covers(tabs[i].url, url)
  }

  method HasSavedUrl(tabs: seq<SavedTab>, url: Url) returns (found: bool)
    ensures found <==> HasSaved(tabs, url)
  {
    var saved: seq<Tab> := seq(|tabs|, i requires 0 <= i < |tabs| => Tab("", tabs[i].url, "", false, false));
    assert forall i :: 0 <= i < |tabs| ==> saved[i].url == tabs[i].url;
    var ok, _, _ := MatchTab(saved, url);
    found := ok;
  }

  // --- what merging promises --------------------------------------------------

  lemma {:induction false} StillPendingIff(live: seq<Tab>, saved: seq<SavedTab>, t: SavedTab)
    ensures t in StillPending(live, saved) <==> t in saved && t.pending && !HasMatch(live, t.url)
  {
    if saved != [] {
      StillPendingIff(live, saved[..|saved| - 1], t);
    }
  }

  lemma {:induction false} WebTabsAreLoaded(tabs: seq<Tab>, t: SavedTab)
    ensures t in WebTabs(tabs) <==> exists i :: 0 <= i < |tabs| && tabs[i].url.web && t == AsSaved(tabs[i])
    ensures t in WebTabs(tabs) ==> !t.pending
  {
    if tabs != [] {
      var init := tabs[..|tabs| - 1];
      WebTabsAreLoaded(init, t);
      assert forall i :: 0 <= i < |init| ==> init[i] == tabs[i];
    }
  }

  /** A pending tab stays in the merge exactly when no live tab stands for it
      or there is nothing live to save; a merge makes up no pending tab. */
  lemma MergeKeepsPending(w: Window, saved: seq<SavedTab>, t: SavedTab)
    requires t.pending
    ensures t in Merged(w, saved) <==> t in saved && (!Savable(w) || !HasMatch(w.tabs, t.url))
  {
    StillPendingIff(w.tabs, saved, t);
    WebTabsAreLoaded(w.tabs, t);
  }

  lemma {:induction false} StillPendingOfLoaded(live: seq<Tab>, a: seq<SavedTab>, b: seq<SavedTab>)
    requires forall t :: t in a ==> !t.pending
    ensures StillPending(live, a + b) == StillPending(live, b)
  {
    if b != [] {
      assert (a + b)[..|a + b| - 1] == a + b[..|b| - 1];
      StillPendingOfLoaded(live, a, b[..|b| - 1]);
    } else if a != [] {
      assert a + b == a;
      assert a[|a| - 1] in a;
      StillPendingOfLoaded(live, a[..|a| - 1], []);
      assert a[..|a| - 1] + [] == a[..|a| - 1];
    }
  }

  lemma {:induction false} StillPendingTwice(live: seq<Tab>, saved: seq<SavedTab>)
    ensures StillPending(live, StillPending(live, saved)) == StillPending(live, saved)
  {
    if saved != [] {
      var init, t := saved[..|saved| - 1], saved[|saved| - 1];
      var p := StillPending(live, init);
      StillPendingTwice(live, init);
      assert (p + [t])[..|p|] == p;
      assert p + [] == p;
    }
  }

  /** Saving the same window again changes nothing. */
  lemma MergeIsIdempotent(w: Window, saved: seq<SavedTab>)
    ensures Merged(w, Merged(w, saved)) == Merged(w, saved)
  {
    if Savable(w) {
      forall t ensures t in WebTabs(w.tabs) ==> !t.pending {
        WebTabsAreLoaded(w.tabs, t);
      }
      StillPendingOfLoaded(w.tabs, WebTabs(w.tabs), StillPending(w.tabs, saved));
      StillPendingTwice(w.tabs, saved);
    }
  }

  // --- what is saved, position by position -------------------------------------

  /** A saved tab that shows what the live one does. */
  predicate Shows(saved: SavedTab, t: Tab) {
    && saved.url == t.url && saved.title == t.title && saved.active == t.active && saved.pinned == t.pinned
    && !saved.pending
  }

  lemma {:induction false} WebTabsInOrder(tabs: seq<Tab>) returns (order: seq<nat>)
    ensures |order| == |WebTabs(tabs)| && Increasing(order)
    ensures forall i :: 0 <= i < |order| ==> order[i] < |tabs| && Shows(WebTabs(tabs)[i], tabs[order[i]])
    ensures forall k :: 0 <= k < |tabs| ==> (k in order <==> tabs[k].url.web)
  {
    order := [];
    if tabs != [] {
      var n := |tabs| - 1;
      var before := WebTabsInOrder(tabs[..n]);
      order := WithPosition(before, n, tabs[n].url.web);
      PositionAdded(before, n, tabs[n].url.web);
      forall k | 0 <= k < |tabs| ensures k in order <==> tabs[k].url.web {
        if k < n {
          assert tabs[..n][k] == tabs[k];
        }
      }
    }
  }

  /** A pending tab that no live tab stands for. */
  predicate Unmatched(live: seq<Tab>, t: SavedTab) {
    t.pending && !HasMatch(live, t.url)
  }

  lemma {:induction false} StillPendingInOrder(live: seq<Tab>, saved: seq<SavedTab>) returns (order: seq<nat>)
    ensures |order| == |StillPending(live, saved)| && Increasing(order)
    ensures forall i :: 0 <= i < |order| ==> order[i] < |saved| && StillPending(live, saved)[i] == saved[order[i]]
    ensures forall k :: 0 <= k < |saved| ==> (k in order <==> Unmatched(live, saved[k]))
  {
    order := [];
    if saved != [] {
      var n := |saved| - 1;
      var t := saved[n];
      var before := StillPendingInOrder(live, saved[..n]);
      order := WithPosition(before, n, Unmatched(live, t));
      PositionAdded(before, n, Unmatched(live, t));
      forall k | 0 <= k < |saved| ensures k in order <==> Unmatched(live, saved[k]) {
        if k < n {
          assert saved[..n][k] == saved[k];
        }
      }
    }
  }

  /** Saving a window keeps its web tabs as they show, in order, and behind them
      the pending tabs that no live tab stands for, in order and as they were; a
      window without web tabs leaves what was saved. */
  lemma MergedInOrder(w: Window, saved: seq<SavedTab>) returns (web: seq<nat>, kept: seq<nat>)
    ensures Increasing(web) && forall k :: 0 <= k < |w.tabs| ==> (k in web <==> w.tabs[k].url.web)
    ensures Increasing(kept)
    ensures forall k :: 0 <= k < |saved| ==> (k in kept <==> Unmatched(w.tabs, saved[k]))
    ensures web == [] ==> Merged(w, saved) == saved
    ensures web != [] ==>
              && |Merged(w, saved)| == |web| + |kept|
              && (forall i :: 0 <= i < |web| ==> web[i] < |w.tabs| && Shows(Merged(w, saved)[i], w.tabs[web[i]]))
              && (forall i :: 0 <= i < |kept| ==> kept[i] < |saved| && Merged(w, saved)[|web| + i] == saved[kept[i]])
  {
    web := WebTabsInOrder(w.tabs);
    kept := StillPendingInOrder(w.tabs, saved);
  }

  /** A live URL stands for another if it has the same host and continues its
      non-empty path. */
  lemma CoversIff(have: Url, want: Url)
    ensures Covers(have, want) <==>
            exists host, path, rest ::
              path != [] && want.key == Some(UrlKey(host, path)) && have.key == Some(UrlKey(host, path + rest))
  {
    if Covers(have, want) {
      var path, all := want.key.value.segments, have.key.value.segments;
      assert all == path + all[|path|..];
      assert have.key == Some(UrlKey(want.key.value.host, path + all[|path|..]));
    }
  }

  /** A better tab, or an earlier one that is as good, would have been used. */
  lemma BestMatchIff(tabs: seq<Tab>, url: Url, i: nat)
    requires i < |tabs|
    ensures BestMatch(tabs, url, i) <==>
              && Covers(tabs[i].url, url)
              && forall j :: 0 <= j < |tabs| && j != i && Covers(tabs[j].url, url) ==>
                   if SamePlace(tabs[i].url, url) == SamePlace(tabs[j].url, url) then i < j
                   else SamePlace(tabs[i].url, url)
  {
  }
}
