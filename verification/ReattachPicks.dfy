/** The reattachment said without its loop and its lists: which pairs compete,
    which of them are picked, and what a pick takes out of the running. */
module ReattachPicks {
  import opened BrowserTypes
  import opened Reattach
  import opened ReattachTheory

  /** The picked pairs, each with the pairs that competed with it. */
  type Picks = map<Candidate, set<Candidate>>

  predicate OnOneSide(a: Candidate, b: Candidate) {
    a.window == b.window || a.row == b.row
  }

  /** Higher scores first, then lower row ids, then smaller window ids. */
  predicate Precedes(a: Candidate, b: Candidate) {
    || a.score > b.score
    || (a.score == b.score && a.row < b.row)
    || (a.score == b.score && a.row == b.row && StringLess(a.window, b.window))
  }

  /** A picked pair takes its own window and row, and those of all its rivals. */
  ghost predicate Takes(p: Candidate, rivals: set<Candidate>, o: Candidate) {
    OnOneSide(p, o) || exists q :: q in rivals && OnOneSide(q, o)
  }

  /** A pair picked ahead of `c` takes the window or the row of `o`. */
  ghost predicate TakenAhead(picks: Picks, c: Candidate, o: Candidate) {
    exists p :: p in picks && Precedes(p, c) && Takes(p, picks[p], o)
  }

  /** Exactly the pairs are picked that no pair picked ahead of them takes, and
      the rivals of a pick are the other such pairs of its score that share its
      window or its row. */
  ghost predicate IsPicking(cs: set<Candidate>, picks: Picks) {
    && (forall c :: c in picks <==> c in cs && !TakenAhead(picks, c, c))
    && (forall c, o :: c in picks ==> (o in picks[c] <==> Rivalry(cs, picks, c, o)))
  }

  ghost predicate Rivalry(cs: set<Candidate>, picks: Picks, c: Candidate, o: Candidate) {
    o in cs && o != c && o.score == c.score && OnOneSide(o, c) && !TakenAhead(picks, c, o)
  }

  /** The picks without rivals are the matches; a pick with rivals matches
      nothing. */
  ghost predicate Matched(picks: Picks, m: map<WindowId, RowId>) {
    forall w, r :: Joins(m, w, r) <==> JoinedBy(picks, w, r)
  }

  ghost predicate Joins(m: map<WindowId, RowId>, w: WindowId, r: RowId) {
    w in m && m[w] == r
  }

  ghost predicate JoinedBy(picks: Picks, w: WindowId, r: RowId) {
    exists c :: c in picks && picks[c] == {} && c.window == w && c.row == r
  }

  // --- the loop makes these picks ----------------------------------------------

  lemma OrderIsPrecedence(a: Candidate, b: Candidate)
    ensures Before(a, b) <==> Precedes(a, b)
  {
    StringLessIrreflexive(a.window);
  }

  /** What the loop picks at its step `k`. */
  ghost predicate PickedAt(cs: seq<Candidate>, k: nat, o: Candidate)
    requires k < |cs|
  {
    Free(Greedy(cs, k), cs[k]) && Takes(cs[k], Rivals(cs, Greedy(cs, k), cs[k]), o)
  }

  /** The consumed windows and rows are those the picks so far have taken. */
  lemma {:induction false} UsedIsTaken(cs: seq<Candidate>, n: nat, o: Candidate)
    requires n <= |cs|
    ensures Free(Greedy(cs, n), o) <==> forall k :: 0 <= k < n ==> !PickedAt(cs, k, o)
  {
    if n > 0 {
      UsedIsTaken(cs, n - 1, o);
      assert Free(Greedy(cs, n), o) <==> Free(Greedy(cs, n - 1), o) && !PickedAt(cs, n - 1, o);
    }
  }

  /** The picking and the loop agree on the first `n` candidates. */
  ghost predicate AgreesBelow(cs: seq<Candidate>, picks: Picks, n: nat)
    requires n <= |cs|
  {
    forall k :: 0 <= k < n ==> AgreesAt(cs, picks, k)
  }

  ghost predicate AgreesAt(cs: seq<Candidate>, picks: Picks, k: nat)
    requires k < |cs|
  {
    && (cs[k] in picks <==> Free(Greedy(cs, k), cs[k]))
    && (cs[k] in picks ==> picks[cs[k]] == Rivals(cs, Greedy(cs, k), cs[k]))
  }

  lemma AheadIsUsed(cs: seq<Candidate>, picks: Picks, n: nat, o: Candidate)
    requires StrictlySorted(cs) && n < |cs| && AgreesBelow(cs, picks, n) && picks.Keys <= Elements(cs)
    ensures TakenAhead(picks, cs[n], o) <==> !Free(Greedy(cs, n), o)
  {
    UsedIsTaken(cs, n, o);
    if TakenAhead(picks, cs[n], o) {
      var p :| p in picks && Precedes(p, cs[n]) && Takes(p, picks[p], o);
      var k := Earlier(cs, p, n);
      assert AgreesAt(cs, picks, k) && PickedAt(cs, k, o);
    }
    if k :| 0 <= k < n && PickedAt(cs, k, o) {
      OrderIsPrecedence(cs[k], cs[n]);
      assert AgreesAt(cs, picks, k);
    }
  }

  lemma Earlier(cs: seq<Candidate>, p: Candidate, n: nat) returns (k: nat)
    requires StrictlySorted(cs) && n < |cs| && p in Elements(cs) && Precedes(p, cs[n])
    ensures k < n && cs[k] == p
  {
    k :| 0 <= k < |cs| && cs[k] == p;
    OrderIsPrecedence(p, cs[n]);
    BeforeTotal(p, cs[n]);
  }

  ghost function LoopPicks(cs: seq<Candidate>): Picks
    requires StrictlySorted(cs)
  {
    map c | c in cs && Free(Greedy(cs, IndexOf(cs, c)), c) :: Rivals(cs, Greedy(cs, IndexOf(cs, c)), c)
  }

  ghost function IndexOf(cs: seq<Candidate>, c: Candidate): (k: nat)
    requires c in cs
    ensures k < |cs| && cs[k] == c
  {
    var k :| 0 <= k < |cs| && cs[k] == c;
    k
  }

  lemma AgreesMeansPicks(cs: seq<Candidate>, picks: Picks)
    requires StrictlySorted(cs) && picks.Keys <= Elements(cs) && AgreesBelow(cs, picks, |cs|)
    ensures IsPicking(Elements(cs), picks)
  {
    forall c | c in cs ensures c in picks <==> !TakenAhead(picks, c, c) {
      var k :| 0 <= k < |cs| && cs[k] == c;
      assert AgreesAt(cs, picks, k);
      AheadIsUsed(cs, picks, k, c);
    }
    forall c, o | c in picks ensures o in picks[c] <==> Rivalry(Elements(cs), picks, c, o) {
      var k :| 0 <= k < |cs| && cs[k] == c;
      assert AgreesAt(cs, picks, k);
      AheadIsUsed(cs, picks, k, o);
    }
  }

  lemma LoopAgrees(cs: seq<Candidate>)
    requires StrictlySorted(cs)
    ensures AgreesBelow(cs, LoopPicks(cs), |cs|)
  {
    forall k | 0 <= k < |cs| ensures AgreesAt(cs, LoopPicks(cs), k) {
      SameIndex(cs, k);
    }
  }

  lemma SameIndex(cs: seq<Candidate>, k: nat)
    requires StrictlySorted(cs) && k < |cs|
    ensures IndexOf(cs, cs[k]) == k
  {
    BeforeTotal(cs[k], cs[k]);
  }

  /** There is no other picking. */
  lemma {:induction false} PickingAgrees(cs: seq<Candidate>, picks: Picks, n: nat)
    requires StrictlySorted(cs) && IsPicking(Elements(cs), picks) && n <= |cs|
    ensures AgreesBelow(cs, picks, n)
  {
    if n > 0 {
      PickingAgrees(cs, picks, n - 1);
      PickAgrees(cs, picks, n - 1);
    }
  }

  lemma PickAgrees(cs: seq<Candidate>, picks: Picks, k: nat)
    requires StrictlySorted(cs) && IsPicking(Elements(cs), picks) && k < |cs| && AgreesBelow(cs, picks, k)
    ensures AgreesAt(cs, picks, k)
  {
    var c, st := cs[k], Greedy(cs, k);
    AheadIsUsed(cs, picks, k, c);
    if c in picks {
      forall o ensures o in picks[c] <==> o in Rivals(cs, st, c) {
        AheadIsUsed(cs, picks, k, o);
        RivalryIsRival(cs, picks, st, c, o);
      }
    }
  }

  lemma RivalryIsRival(cs: seq<Candidate>, picks: Picks, st: Greed, c: Candidate, o: Candidate)
    requires TakenAhead(picks, c, o) <==> !Free(st, o)
    ensures Rivalry(Elements(cs), picks, c, o) <==> o in Rivals(cs, st, c)
  {
  }

  lemma MatchesArePicks(cs: seq<Candidate>, picks: Picks)
    requires StrictlySorted(cs) && picks.Keys <= Elements(cs) && AgreesBelow(cs, picks, |cs|)
    ensures Matched(picks, Final(cs).matches)
  {
    var m := Final(cs).matches;
    forall w, r ensures Joins(m, w, r) <==> JoinedBy(picks, w, r) {
      if w in m && m[w] == r {
        var i := MatchHasPick(cs, |cs|, w);
        assert AgreesAt(cs, picks, i);
      }
      if c :| c in picks && picks[c] == {} && c.window == w && c.row == r {
        var k :| 0 <= k < |cs| && cs[k] == c;
        assert AgreesAt(cs, picks, k);
        GreedyGrows(cs, k + 1, |cs|);
      }
    }
  }

  lemma MatchedOnce(picks: Picks, m: map<WindowId, RowId>, m': map<WindowId, RowId>)
    requires Matched(picks, m) && Matched(picks, m')
    ensures m == m'
  {
    forall w ensures (w in m <==> w in m') && (w in m ==> m[w] == m'[w]) {
      if w in m {
        assert Joins(m, w, m[w]) <==> Joins(m', w, m[w]);
      }
      if w in m' {
        assert Joins(m, w, m'[w]) <==> Joins(m', w, m'[w]);
      }
    }
  }

  lemma PickingsAgreeWithLoop(cs: seq<Candidate>, picks: Picks, m: map<WindowId, RowId>)
    requires StrictlySorted(cs) && IsPicking(Elements(cs), picks)
    ensures Matched(picks, m) <==> m == Final(cs).matches
  {
    PickingAgrees(cs, picks, |cs|);
    MatchesArePicks(cs, picks);
    if Matched(picks, m) {
      MatchedOnce(picks, m, Final(cs).matches);
    }
  }

  ghost predicate AreCandidates(rows: seq<SavedRow>, windows: seq<Window>, owned: set<WindowId>, threshold: real,
                                cs: set<Candidate>) {
    forall c :: c in cs <==> Competes(rows, windows, owned, threshold, c)
  }

  // --- which pairs compete --------------------------------------------------------

  /** The key of a loaded tab with the given key. */
  predicate SavesKey(r: SavedRow, key: string) {
    key != "" && exists t :: t in r.tabs && !t.pending && t.url.norm == key
  }

  predicate ShowsKey(w: Window, key: string) {
    key != "" && exists t :: t in w.tabs && t.url.norm == key
  }

  ghost predicate SavesAny(r: SavedRow) {
    exists key :: SavesKey(r, key)
  }

  ghost predicate ShowsAny(w: Window) {
    exists key :: ShowsKey(w, key)
  }

  /** The window can be claimed: nobody owns it, it shows a page with a key, and
      no later entry of its id does. */
  ghost predicate Claimable(windows: seq<Window>, owned: set<WindowId>, i: nat)
    requires i < |windows|
  {
    && windows[i].id !in owned
    && ShowsAny(windows[i])
    && (forall j :: i < j < |windows| && windows[j].id == windows[i].id ==> !ShowsAny(windows[j]))
  }

  /** `score` is the share of the keys of either side that both have. */
  ghost predicate ScoredBy(r: SavedRow, w: Window, score: real) {
    exists both, either :: SharedKeys(r, w, both) && AllKeys(r, w, either) && IsShare(score, both, either)
  }

  predicate IsShare(score: real, both: set<string>, either: set<string>) {
    score * |either| as real == |both| as real
  }

  ghost predicate SharedKeys(r: SavedRow, w: Window, keys: set<string>) {
    forall key :: key in keys <==> SavesKey(r, key) && ShowsKey(w, key)
  }

  ghost predicate AllKeys(r: SavedRow, w: Window, keys: set<string>) {
    forall key :: key in keys <==> SavesKey(r, key) || ShowsKey(w, key)
  }

  /** The pair joins a row with a loaded page to a claimable window, at or above
      the threshold. */
  ghost predicate Competes(rows: seq<SavedRow>, windows: seq<Window>, owned: set<WindowId>, threshold: real,
                           c: Candidate) {
    exists r, i ::
      && r in rows && r.id == c.row && SavesAny(r)
      && 0 <= i < |windows| && windows[i].id == c.window && Claimable(windows, owned, i)
      && ScoredBy(r, windows[i], c.score) && c.score >= threshold
  }

  lemma {:induction false} LoadedUrl(tabs: seq<SavedTab>, u: Url)
    ensures u in LoadedUrls(tabs) <==> exists t :: t in tabs && !t.pending && t.url == u
  {
    if tabs != [] {
      LoadedUrl(tabs[1..], u);
      assert tabs == [tabs[0]] + tabs[1..];
    }
  }

  lemma RowKeysAreSaved(r: SavedRow, key: string)
    ensures key in RowKeys(r) <==> SavesKey(r, key)
  {
    if key in RowKeys(r) {
      var i :| 0 <= i < |LoadedUrls(r.tabs)| && LoadedUrls(r.tabs)[i].norm == key;
      LoadedUrl(r.tabs, LoadedUrls(r.tabs)[i]);
    }
    if SavesKey(r, key) {
      var t :| t in r.tabs && !t.pending && t.url.norm == key;
      LoadedUrl(r.tabs, t.url);
    }
  }

  lemma WindowKeysAreShown(w: Window, key: string)
    ensures key in UrlSet(WindowUrls(w)) <==> ShowsKey(w, key)
  {
    var urls := WindowUrls(w);
    if key in UrlSet(urls) {
      var i :| 0 <= i < |urls| && urls[i].norm == key;
      assert w.tabs[i] in w.tabs;
    }
    if ShowsKey(w, key) {
      var t :| t in w.tabs && t.url.norm == key;
      var i :| 0 <= i < |w.tabs| && w.tabs[i] == t;
      assert urls[i].norm == key;
    }
  }

  /** The table of claimable windows, entry by entry. */
  lemma {:induction false} ClaimableIff(windows: seq<Window>, owned: set<WindowId>, id: WindowId, keys: set<string>)
    ensures (id in WindowSets(windows, owned) && WindowSets(windows, owned)[id] == keys) <==>
            exists i :: 0 <= i < |windows| && windows[i].id == id && UrlSet(WindowUrls(windows[i])) == keys &&
                        Claims(windows, owned, i)
  {
    if windows != [] {
      var n := |windows| - 1;
      var w, before := windows[n], windows[..n];
      ClaimableIff(before, owned, id, keys);
      assert forall i :: 0 <= i < n ==> before[i] == windows[i];
      assert forall i :: 0 <= i < n ==>
        (Claims(windows, owned, i) <==> Claims(before, owned, i) &&
                                        (w.id == windows[i].id ==> UrlSet(WindowUrls(w)) == {}));
      assert Claims(windows, owned, n) <==> w.id !in owned && UrlSet(WindowUrls(w)) != {};
    }
  }

  ghost predicate Claims(windows: seq<Window>, owned: set<WindowId>, i: nat)
    requires i < |windows|
  {
    && windows[i].id !in owned && UrlSet(WindowUrls(windows[i])) != {}
    && forall j :: i < j < |windows| && windows[j].id == windows[i].id ==> UrlSet(WindowUrls(windows[j])) == {}
  }

  lemma ClaimsIffClaimable(windows: seq<Window>, owned: set<WindowId>, i: nat)
    requires i < |windows|
    ensures Claims(windows, owned, i) <==> Claimable(windows, owned, i)
  {
    forall j | 0 <= j < |windows| ensures UrlSet(WindowUrls(windows[j])) != {} <==> ShowsAny(windows[j]) {
      ShowsSome(windows[j]);
    }
  }

  lemma ShowsSome(w: Window)
    ensures UrlSet(WindowUrls(w)) != {} <==> ShowsAny(w)
  {
    if key :| key in UrlSet(WindowUrls(w)) {
      WindowKeysAreShown(w, key);
    }
    if key :| ShowsKey(w, key) {
      WindowKeysAreShown(w, key);
    }
  }

  lemma SavesSome(r: SavedRow)
    ensures RowKeys(r) != {} <==> SavesAny(r)
  {
    if key :| key in RowKeys(r) {
      RowKeysAreSaved(r, key);
    }
    if key :| SavesKey(r, key) {
      RowKeysAreSaved(r, key);
    }
  }

  lemma JaccardIsShare(a: set<string>, b: set<string>, score: real)
    requires a != {} && b != {}
    ensures score == JaccardIndex(a, b) <==> IsShare(score, a * b, a + b)
  {
    assert a <= a + b;
    SubsetSize(a, a + b);
    var n, d := |a * b| as real, |a + b| as real;
    assert d > 0.0;
    assert JaccardIndex(a, b) * d == n;
    if score * d == n {
      assert (score - JaccardIndex(a, b)) * d == 0.0;
    }
  }

  lemma KeysOfBoth(r: SavedRow, w: Window, keys: set<string>)
    ensures SharedKeys(r, w, keys) <==> keys == RowKeys(r) * UrlSet(WindowUrls(w))
    ensures AllKeys(r, w, keys) <==> keys == RowKeys(r) + UrlSet(WindowUrls(w))
  {
    var a, b := RowKeys(r), UrlSet(WindowUrls(w));
    forall key ensures (key in a <==> SavesKey(r, key)) && (key in b <==> ShowsKey(w, key)) {
      RowKeysAreSaved(r, key);
      WindowKeysAreShown(w, key);
    }
    if SharedKeys(r, w, keys) {
      assert forall key :: key in keys <==> key in a * b;
    }
    if AllKeys(r, w, keys) {
      assert forall key :: key in keys <==> key in a + b;
    }
  }

  lemma ScoreIsShare(r: SavedRow, w: Window, score: real)
    requires RowKeys(r) != {} && UrlSet(WindowUrls(w)) != {}
    ensures score == JaccardIndex(RowKeys(r), UrlSet(WindowUrls(w))) <==> ScoredBy(r, w, score)
  {
    var a, b := RowKeys(r), UrlSet(WindowUrls(w));
    JaccardIsShare(a, b, score);
    KeysOfBoth(r, w, a * b);
    KeysOfBoth(r, w, a + b);
    if ScoredBy(r, w, score) {
      var both, either :| SharedKeys(r, w, both) && AllKeys(r, w, either) && IsShare(score, both, either);
      KeysOfBoth(r, w, both);
      KeysOfBoth(r, w, either);
    }
  }

  /** The candidates are the pairs that compete, said of rows and windows. */
  lemma CandidateIff(rows: seq<SavedRow>, windows: seq<Window>, owned: set<WindowId>, threshold: real, c: Candidate)
    ensures IsCandidate(rows, WindowSets(windows, owned), threshold, c) <==>
            Competes(rows, windows, owned, threshold, c)
  {
    var sets := WindowSets(windows, owned);
    if IsCandidate(rows, sets, threshold, c) {
      var r :| r in rows && r.id == c.row && RowKeys(r) != {} &&
               c.score == JaccardIndex(RowKeys(r), sets[c.window]) >= threshold;
      ClaimableIff(windows, owned, c.window, sets[c.window]);
      var i :| 0 <= i < |windows| && windows[i].id == c.window && UrlSet(WindowUrls(windows[i])) == sets[c.window] &&
               Claims(windows, owned, i);
      ClaimsIffClaimable(windows, owned, i);
      SavesSome(r);
      ScoreIsShare(r, windows[i], c.score);
    }
    if Competes(rows, windows, owned, threshold, c) {
      var r, i :|
        && r in rows && r.id == c.row && SavesAny(r)
        && 0 <= i < |windows| && windows[i].id == c.window && Claimable(windows, owned, i)
        && ScoredBy(r, windows[i], c.score) && c.score >= threshold;
      ClaimsIffClaimable(windows, owned, i);
      ClaimableIff(windows, owned, c.window, UrlSet(WindowUrls(windows[i])));
      SavesSome(r);
      ScoreIsShare(r, windows[i], c.score);
    }
  }

  // --- the matching ----------------------------------------------------------------

  /** The matching is what the picks among the competing pairs join, whatever
      loop or listing finds it. */
  lemma MatchingIffPicked(rows: seq<SavedRow>, windows: seq<Window>, owned: set<WindowId>, threshold: real,
                          m: map<WindowId, RowId>)
    ensures IsMatching(rows, windows, owned, threshold, m) <==>
            exists cs, picks :: AreCandidates(rows, windows, owned, threshold, cs) && IsPicking(cs, picks) &&
                                Matched(picks, m)
  {
    var sets := WindowSets(windows, owned);
    if IsMatching(rows, windows, owned, threshold, m) {
      var list :| ListsCandidates(rows, sets, threshold, list) && m == Final(list).matches;
      ListIsCandidates(rows, windows, owned, threshold, list);
      LoopAgrees(list);
      AgreesMeansPicks(list, LoopPicks(list));
      MatchesArePicks(list, LoopPicks(list));
    }
    if cs, picks :| AreCandidates(rows, windows, owned, threshold, cs) && IsPicking(cs, picks) && Matched(picks, m) {
      var list := SortedListing(cs);
      CandidatesAreListed(rows, windows, owned, threshold, list);
      PickingsAgreeWithLoop(list, picks, m);
    }
  }

  lemma {:induction false} SortedListing(cs: set<Candidate>) returns (list: seq<Candidate>)
    ensures StrictlySorted(list) && Elements(list) == cs
  {
    if cs == {} {
      list := [];
    } else {
      var c :| c in cs;
      var rest := SortedListing(cs - {c});
      assert forall x :: x in rest <==> x in Elements(rest);
      list := Insert(c, rest);
    }
  }

  lemma CandidatesAreListed(rows: seq<SavedRow>, windows: seq<Window>, owned: set<WindowId>, threshold: real,
                            list: seq<Candidate>)
    requires StrictlySorted(list) && AreCandidates(rows, windows, owned, threshold, Elements(list))
    ensures ListsCandidates(rows, WindowSets(windows, owned), threshold, list)
  {
    forall c ensures c in list <==> IsCandidate(rows, WindowSets(windows, owned), threshold, c) {
      CandidateIff(rows, windows, owned, threshold, c);
      assert c in list <==> c in Elements(list);
    }
  }

  lemma SameCandidates(rows: seq<SavedRow>, windows: seq<Window>, owned: set<WindowId>, threshold: real,
                       a: set<Candidate>, b: set<Candidate>)
    requires AreCandidates(rows, windows, owned, threshold, a) && AreCandidates(rows, windows, owned, threshold, b)
    ensures a == b
  {
    assert forall c :: c in a <==> c in b;
  }

  lemma ListIsCandidates(rows: seq<SavedRow>, windows: seq<Window>, owned: set<WindowId>, threshold: real,
                         cs: seq<Candidate>)
    requires ListsCandidates(rows, WindowSets(windows, owned), threshold, cs)
    ensures AreCandidates(rows, windows, owned, threshold, Elements(cs))
  {
    forall c ensures c in Elements(cs) <==> Competes(rows, windows, owned, threshold, c) {
      CandidateIff(rows, windows, owned, threshold, c);
    }
  }

  // --- what a tie takes out of the running -------------------------------------------

  /** No pair ahead of `c` takes a side of `c` or `o`, be it by itself or by a
      pair of its score that shares a side with it. */
  ghost predicate NoneAhead(cs: set<Candidate>, c: Candidate, o: Candidate) {
    forall p :: p in cs && Precedes(p, c) ==>
      !Near(p, c, o) && forall q :: q in cs && q.score == p.score && OnOneSide(q, p) ==> !Near(q, c, o)
  }

  predicate Near(p: Candidate, c: Candidate, o: Candidate) {
    OnOneSide(p, c) || OnOneSide(p, o)
  }

  /** Two competing pairs of one score that share a side, with nothing ahead that
      could take a side of either, are both given up: none of their windows and
      none of their rows is matched. */
  lemma TieIsSpent(rows: seq<SavedRow>, windows: seq<Window>, owned: set<WindowId>, threshold: real,
                   m: map<WindowId, RowId>, cs: set<Candidate>, c: Candidate, o: Candidate)
    requires IsMatching(rows, windows, owned, threshold, m) && AreCandidates(rows, windows, owned, threshold, cs)
    requires c in cs && o in cs && c != o && c.score == o.score && OnOneSide(c, o) && Precedes(c, o)
    requires NoneAhead(cs, c, o)
    ensures c.window !in m && o.window !in m && c.row !in m.Values && o.row !in m.Values
  {
    MatchingIffPicked(rows, windows, owned, threshold, m);
    var all, picks :| AreCandidates(rows, windows, owned, threshold, all) && IsPicking(all, picks) && Matched(picks, m);
    SameCandidates(rows, windows, owned, threshold, all, cs);
    TiedPick(cs, picks, c, o);
    SpentByPick(cs, picks, m, c, o);
  }

  lemma SpentByPick(cs: set<Candidate>, picks: Picks, m: map<WindowId, RowId>, c: Candidate, o: Candidate)
    requires IsPicking(cs, picks) && Matched(picks, m) && NoneAhead(cs, c, o) && c in picks && o in picks[c]
    ensures c.window !in m && o.window !in m && c.row !in m.Values && o.row !in m.Values
  {
    forall w | w in m ensures w != c.window && w != o.window && m[w] != c.row && m[w] != o.row {
      assert Joins(m, w, m[w]);
      var p: Candidate :| p in picks && picks[p] == {} && p.window == w && p.row == m[w];
      NotNearTie(cs, picks, c, o, p);
    }
  }

  lemma TiedPick(cs: set<Candidate>, picks: Picks, c: Candidate, o: Candidate)
    requires IsPicking(cs, picks) && NoneAhead(cs, c, o)
    requires c in cs && o in cs && c != o && c.score == o.score && OnOneSide(c, o)
    ensures c in picks && o in picks[c]
  {
    forall p | p in picks && Precedes(p, c) ensures !Takes(p, picks[p], c) && !Takes(p, picks[p], o) {
      assert forall q :: q in picks[p] ==> Rivalry(cs, picks, p, q);
    }
    assert !TakenAhead(picks, c, c) && !TakenAhead(picks, c, o);
    assert Rivalry(cs, picks, c, o);
  }

  lemma NotNearTie(cs: set<Candidate>, picks: Picks, c: Candidate, o: Candidate, p: Candidate)
    requires IsPicking(cs, picks) && NoneAhead(cs, c, o) && c in picks && o in picks[c]
    requires p in picks && picks[p] == {}
    ensures !Near(p, c, o)
  {
    TakesNear(picks, c, o, p);
    OrderIsPrecedence(p, c);
    OrderIsPrecedence(c, p);
    BeforeTotal(p, c);
  }

  lemma TakesNear(picks: Picks, c: Candidate, o: Candidate, p: Candidate)
    requires c in picks && o in picks[c]
    ensures Near(p, c, o) ==> Takes(c, picks[c], p)
  {}

  /** It is not enough that no pair ahead of `c` shares a side with the two: here
      the pair ahead ties with a third pair, takes the row of `c` with it, and the
      tie of `c` and `o` never comes up. */
  lemma EarlierTieBreaksATie()
    ensures DistinctRows(TiedRows()) && IsMatching(TiedRows(), TiedWindows(), {}, 0.5, map["a" := 3])
    ensures AreCandidates(TiedRows(), TiedWindows(), {}, 0.5, Elements(TiedPairs()))
    ensures var c, o := Candidate("a", 2, 0.5), Candidate("a", 3, 0.5);
            c in TiedPairs() && o in TiedPairs() && Precedes(c, o) && OnOneSide(c, o) &&
            forall p :: p in TiedPairs() && Precedes(p, c) ==> !Near(p, c, o)
  {
    TiedMatching();
    ListIsCandidates(TiedRows(), TiedWindows(), {}, 0.5, TiedPairs());
    TiedOrder();
  }

  lemma TiedMatching()
    ensures DistinctRows(TiedRows()) && ListsCandidates(TiedRows(), WindowSets(TiedWindows(), {}), 0.5, TiedPairs())
    ensures IsMatching(TiedRows(), TiedWindows(), {}, 0.5, map["a" := 3])
  {
    TiedCandidates();
    TiedGreedy();
  }

  lemma TiedOrder()
    ensures var c, o := Candidate("a", 2, 0.5), Candidate("a", 3, 0.5);
            c in TiedPairs() && o in TiedPairs() && Precedes(c, o) && OnOneSide(c, o) &&
            forall p :: p in TiedPairs() && Precedes(p, c) ==> !Near(p, c, o)
  {
    assert TiedPairs()[1] == Candidate("a", 2, 0.5) && TiedPairs()[3] == Candidate("a", 3, 0.5);
    assert !StringLess("b", "a");
  }

  function TiedPairs(): seq<Candidate> {
    [Candidate("b", 1, 0.5), Candidate("a", 2, 0.5), Candidate("b", 2, 0.5), Candidate("a", 3, 0.5)]
  }

  /** A saved row with one loaded tab per key, and a window that shows them. */
  function Keyed(key: string): Url {
    Url(key, true, key, None)
  }

  function RowOf(id: RowId, keys: seq<string>): SavedRow {
    SavedRow(id, seq(|keys|, i requires 0 <= i < |keys| => SavedTab(Keyed(keys[i]), "", false, false, false)))
  }

  function WindowOf(id: WindowId, keys: seq<string>): Window {
    Window(id, false, seq(|keys|, i requires 0 <= i < |keys| => Tab("", Keyed(keys[i]), "", false, false)))
  }

  function TiedRows(): seq<SavedRow> {
    [RowOf(1, ["1"]), RowOf(2, ["1", "2", "3", "4"]), RowOf(3, ["3"])]
  }

  function TiedWindows(): seq<Window> {
    [WindowOf("b", ["1", "2"]), WindowOf("a", ["3", "4"])]
  }

  lemma KeysOfRow(id: RowId, keys: seq<string>)
    requires "" !in keys
    ensures RowKeys(RowOf(id, keys)) == Elements(keys)
  {
    var r := RowOf(id, keys);
    forall key ensures key in RowKeys(r) <==> key in Elements(keys) {
      RowKeysAreSaved(r, key);
      if i :| 0 <= i < |keys| && keys[i] == key {
        assert r.tabs[i] in r.tabs && r.tabs[i].url.norm == key;
      }
    }
  }

  lemma KeysOfWindow(id: WindowId, keys: seq<string>)
    requires "" !in keys
    ensures UrlSet(WindowUrls(WindowOf(id, keys))) == Elements(keys)
  {
    var w := WindowOf(id, keys);
    forall key ensures key in UrlSet(WindowUrls(w)) <==> key in Elements(keys) {
      WindowKeysAreShown(w, key);
      if i :| 0 <= i < |keys| && keys[i] == key {
        assert w.tabs[i] in w.tabs && w.tabs[i].url.norm == key;
      }
    }
  }

  lemma TiedCandidates()
    ensures forall c :: IsCandidate(TiedRows(), WindowSets(TiedWindows(), {}), 0.5, c) <==> c in TiedPairs()
  {
    KeysOfRow(1, ["1"]);
    KeysOfRow(2, ["1", "2", "3", "4"]);
    KeysOfRow(3, ["3"]);
    TiedSets();
    assert Elements(["1"]) == {"1"} && Elements(["3"]) == {"3"};
    assert Elements(["1", "2", "3", "4"]) == {"1", "2", "3", "4"};
    TiedScores();
    forall c ensures IsCandidate(TiedRows(), WindowSets(TiedWindows(), {}), 0.5, c) <==> c in TiedPairs() {
      TiedCandidate(RowOf(1, ["1"]), RowOf(2, ["1", "2", "3", "4"]), RowOf(3, ["3"]), "b", "a",
                    {"1", "2"}, {"3", "4"}, c);
    }
  }

  lemma TiedCandidate(r: SavedRow, s: SavedRow, t: SavedRow, b: WindowId, a: WindowId,
                      some: set<string>, others: set<string>, c: Candidate)
    requires r.id == 1 && s.id == 2 && t.id == 3 && a != b
    requires RowKeys(r) != {} && RowKeys(s) != {} && RowKeys(t) != {}
    requires JaccardIndex(RowKeys(r), some) == JaccardIndex(RowKeys(s), some) == 0.5
    requires JaccardIndex(RowKeys(t), some) == 0.0
    requires JaccardIndex(RowKeys(s), others) == JaccardIndex(RowKeys(t), others) == 0.5
    requires JaccardIndex(RowKeys(r), others) == 0.0
    ensures IsCandidate([r, s, t], map[b := some, a := others], 0.5, c) <==>
            c in [Candidate(b, 1, 0.5), Candidate(a, 2, 0.5), Candidate(b, 2, 0.5), Candidate(a, 3, 0.5)]
  {
    assert forall q :: q in [r, s, t] <==> q == r || q == s || q == t;
  }

  lemma TiedSets()
    ensures WindowSets(TiedWindows(), {}) == map["b" := {"1", "2"}, "a" := {"3", "4"}]
  {
    var windows := TiedWindows();
    KeysOfWindow("b", ["1", "2"]);
    KeysOfWindow("a", ["3", "4"]);
    assert Elements(["1", "2"]) == {"1", "2"} && Elements(["3", "4"]) == {"3", "4"};
    assert windows[..1] == [windows[0]];
    assert WindowSets([windows[0]], {}) == map["b" := {"1", "2"}] by {
      assert [windows[0]][..0] == [];
    }
  }

  lemma TiedScores()
    ensures JaccardIndex({"1"}, {"1", "2"}) == 0.5 && JaccardIndex({"1"}, {"3", "4"}) == 0.0
    ensures JaccardIndex({"1", "2", "3", "4"}, {"1", "2"}) == 0.5
    ensures JaccardIndex({"1", "2", "3", "4"}, {"3", "4"}) == 0.5
    ensures JaccardIndex({"3"}, {"1", "2"}) == 0.0 && JaccardIndex({"3"}, {"3", "4"}) == 0.5
  {
    assert {"1"} * {"1", "2"} == {"1"} && {"1"} + {"1", "2"} == {"1", "2"};
    assert {"1"} * {"3", "4"} == {} && {"3"} * {"1", "2"} == {};
    assert {"1", "2", "3", "4"} * {"1", "2"} == {"1", "2"} && {"1", "2", "3", "4"} + {"1", "2"} == {"1", "2", "3", "4"};
    assert {"1", "2", "3", "4"} * {"3", "4"} == {"3", "4"} && {"1", "2", "3", "4"} + {"3", "4"} == {"1", "2", "3", "4"};
    assert {"3"} * {"3", "4"} == {"3"} && {"3"} + {"3", "4"} == {"3", "4"};
  }

  lemma TiedGreedy()
    ensures StrictlySorted(TiedPairs()) && Greedy(TiedPairs(), 4).matches == map["a" := 3]
  {
    assert StrictlySorted(TiedPairs()) by {
      assert !StringLess("b", "a");
    }
    TieThenMatch("b", "a", 0.5);
  }

  lemma TieThenMatch(b: WindowId, a: WindowId, score: real)
    requires a != b
    ensures var cs := [Candidate(b, 1, score), Candidate(a, 2, score), Candidate(b, 2, score), Candidate(a, 3, score)];
            Greedy(cs, 4).matches == map[a := 3]
  {
    var cs := [Candidate(b, 1, score), Candidate(a, 2, score), Candidate(b, 2, score), Candidate(a, 3, score)];
    assert Rivals(cs, Greedy(cs, 0), cs[0]) == {cs[2]};
    var tied := Greedy(cs, 1);
    assert tied == Greed({b}, {1, 2}, map[]);
    assert Greedy(cs, 3) == Greedy(cs, 2) == tied;
    assert Rivals(cs, tied, cs[3]) == {};
  }
}
