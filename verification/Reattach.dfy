/** Reattaching saved rows to the windows a restarted browser brings back:
    a greedy matching by Jaccard score that refuses ambiguous ties. */
module Reattach {
  import opened BrowserTypes

  const REATTACH_THRESHOLD := 0.5

  /** A saved row as the matcher sees it: its id and its loaded tabs' URLs. */
  datatype SavedRow = SavedRow(id: RowId, tabs: seq<SavedTab>)

  datatype Candidate = Candidate(window: WindowId, row: RowId, score: real)

  // --- URL sets and scores -------------------------------------------------

  function UrlSet(urls: seq<Url>): set<string> {
    set i | 0 <= i < |urls| && urls[i].norm != "" :: urls[i].norm
  }

  method ComputeUrlSet(urls: seq<Url>) returns (keys: set<string>)
    ensures keys == UrlSet(urls)
  {
    keys := {};
    for i := 0 to |urls|
      invariant keys == UrlSet(urls[..i])
    {
      assert UrlSet(urls[..i + 1]) == UrlSet(urls[..i]) + if urls[i].norm != "" then {urls[i].norm} else {};
      if urls[i].norm != "" {
        keys := keys + {urls[i].norm};
      }
    }
    assert urls[..|urls|] == urls;
  }

  function WindowUrls(w: Window): seq<Url> {
    seq(|w.tabs|, i requires 0 <= i < |w.tabs| => w.tabs[i].url)
  }

  /** URLs of the tabs that are not still waiting to load. */
  function LoadedUrls(tabs: seq<SavedTab>): seq<Url> {
    if tabs == [] then []
    else (if tabs[0].pending then [] else [tabs[0].url]) + LoadedUrls(tabs[1..])
  }

  /** The Jaccard index: shared keys over all keys, zero for an empty side. */
  ghost function JaccardIndex(a: set<string>, b: set<string>): (score: real)
    ensures 0.0 <= score <= 1.0
  {
    if a == {} || b == {} then 0.0
    else
      assert a * b <= a + b;
      SubsetSize(a * b, a + b);
      assert a <= a + b;
      SubsetSize(a, a + b);
      assert |a| > 0;
      FractionBounds(|a * b|, |a + b|);
      |a * b| as real / |a + b| as real
  }

  lemma FractionBounds(n: nat, d: nat)
    requires n <= d && d > 0
    ensures 0.0 <= n as real / d as real <= 1.0
  {}

  lemma {:induction false} SubsetSize<T>(a: set<T>, b: set<T>)
    requires a <= b
    ensures |a| <= |b|
  {
    assert b == a + (b - a);
    assert |b| == |a| + |b - a|;
  }

  method Jaccard(a: set<string>, b: set<string>) returns (score: real)
    ensures score == JaccardIndex(a, b)
  {
    if |a| == 0 || |b| == 0 {
      return 0.0;
    }
    var inter := 0;
    var rest := a;
    while rest != {}
      invariant rest <= a
      invariant inter == |(a - rest) * b|
      decreases |rest|
    {
      var k :| k in rest;
      ghost var seen := a - rest;
      assert k !in seen;
      assert (a - (rest - {k})) == seen + {k};
      if k in b {
        assert (seen + {k}) * b == seen * b + {k};
        inter := inter + 1;
      } else {
        assert (seen + {k}) * b == seen * b;
      }
      rest := rest - {k};
    }
    assert a - rest == a;
    assert |a + b| == |a| + |b| - |a * b|;
    score := inter as real / (|a| + |b| - inter) as real;
  }

  // --- the candidate order ------------------------------------------------

  /** Best score first, then lower row id, then smaller window id. */
  predicate Before(a: Candidate, b: Candidate) {
    if a.score != b.score then a.score > b.score
    else if a.row != b.row then a.row < b.row
    else StringLess(a.window, b.window)
  }

  lemma BeforeTransitive(a: Candidate, b: Candidate, c: Candidate)
    requires Before(a, b) && Before(b, c)
    ensures Before(a, c)
  {
    if a.score == b.score == c.score && a.row == b.row == c.row {
      StringLessTransitive(a.window, b.window, c.window);
    }
  }

  lemma BeforeTotal(a: Candidate, b: Candidate)
    ensures a == b || Before(a, b) || Before(b, a)
    ensures !(Before(a, b) && Before(b, a)) && !Before(a, a)
  {
    StringLessTotal(a.window, b.window);
    StringLessIrreflexive(a.window);
    if Before(a, b) && Before(b, a) {
      BeforeTransitive(a, b, a);
    }
  }

  predicate StrictlySorted(cs: seq<Candidate>) {
    forall i, j :: 0 <= i < j < |cs| ==> Before(cs[i], cs[j])
  }

  predicate NoDuplicates<T(==)>(s: seq<T>) {
    forall i, j :: 0 <= i < j < |s| ==> s[i] != s[j]
  }

  ghost function Elements<T>(s: seq<T>): set<T> {
    set x | x in s
  }

  /** The sorted listing of the candidates; the result depends only on which
      candidates there are. */
  function Insert(c: Candidate, cs: seq<Candidate>): (r: seq<Candidate>)
    requires StrictlySorted(cs) && c !in cs
    ensures StrictlySorted(r)
    ensures forall x :: x in r <==> x == c || x in cs
  {
    if cs == [] then [c]
    else
      BeforeTotal(c, cs[0]);
      if Before(c, cs[0]) then
        assert forall j :: 0 <= j < |cs| ==> Before(c, cs[j]) by {
          forall j | 0 <= j < |cs| ensures Before(c, cs[j]) {
            if j > 0 { BeforeTransitive(c, cs[0], cs[j]); }
          }
        }
        [c] + cs
      else
        var rest := Insert(c, cs[1..]);
        assert forall x :: x in rest ==> Before(cs[0], x) by {
          forall x | x in rest ensures Before(cs[0], x) {
            if x != c {
              var j :| 0 <= j < |cs| - 1 && cs[1..][j] == x;
              assert Before(cs[0], cs[j + 1]);
            }
          }
        }
        assert forall x :: x in cs <==> x == cs[0] || x in cs[1..];
        [cs[0]] + rest
  }

  function SortCandidates(cs: seq<Candidate>): (r: seq<Candidate>)
    requires NoDuplicates(cs)
    ensures StrictlySorted(r)
    ensures forall x :: x in r <==> x in cs
  {
    if cs == [] then []
    else
      assert cs[0] !in cs[1..];
      assert forall x :: x in cs <==> x == cs[0] || x in cs[1..];
      Insert(cs[0], SortCandidates(cs[1..]))
  }

  lemma SomeElement<T>(s: seq<T>)
    ensures s == [] || exists x :: x in s
  {
    if s != [] { assert s[0] in s; }
  }

  /** A strictly sorted list is determined by its elements. */
  lemma {:induction false} SortedUnique(a: seq<Candidate>, b: seq<Candidate>)
    requires StrictlySorted(a) && StrictlySorted(b)
    requires forall x :: x in a <==> x in b
    ensures a == b
  {
    if a == [] {
      SomeElement(b);
    } else {
      assert a[0] in b;
      var j :| 0 <= j < |b| && b[j] == a[0];
      assert b[0] in a;
      var k :| 0 <= k < |a| && a[k] == b[0];
      BeforeTotal(a[0], b[0]);
      assert a[0] == b[0];
      forall x ensures x in a[1..] <==> x in b[1..] {
        TailElements(a, x);
        TailElements(b, x);
      }
      SortedUnique(a[1..], b[1..]);
      assert a == [a[0]] + a[1..] && b == [b[0]] + b[1..];
    }
  }

  lemma TailElements(a: seq<Candidate>, x: Candidate)
    requires StrictlySorted(a) && a != []
    ensures x in a[1..] <==> x in a && x != a[0]
  {
    BeforeTotal(a[0], a[0]);
    if x in a && x != a[0] {
      var i :| 0 <= i < |a| && a[i] == x;
      assert a[1..][i - 1] == x;
    }
    if x in a[1..] {
      var i :| 0 <= i < |a| - 1 && a[1..][i] == x;
      assert Before(a[0], a[i + 1]);
    }
  }

  // --- candidates --------------------------------------------------------

  predicate DistinctRows(rows: seq<SavedRow>) {
    forall i, j :: 0 <= i < j < |rows| ==> rows[i].id != rows[j].id
  }

  /** URL keys of the windows that may be claimed; a repeated id keeps its
      last non-empty entry. */
  function WindowSets(windows: seq<Window>, owned: set<WindowId>): map<WindowId, set<string>> {
    if windows == [] then map[]
    else
      var before := WindowSets(windows[..|windows| - 1], owned);
      var w := windows[|windows| - 1];
      var keys := UrlSet(WindowUrls(w));
      if w.id in owned || keys == {} then before else before[w.id := keys]
  }

  lemma {:induction false} WindowSetsAreClaimable(windows: seq<Window>, owned: set<WindowId>, id: WindowId)
    requires id in WindowSets(windows, owned)
    ensures id !in owned && WindowSets(windows, owned)[id] != {}
    ensures exists w :: w in windows && w.id == id && WindowSets(windows, owned)[id] == UrlSet(WindowUrls(w))
  {
    var w := windows[|windows| - 1];
    assert w in windows;
    if w.id in owned || UrlSet(WindowUrls(w)) == {} || w.id != id {
      WindowSetsAreClaimable(windows[..|windows| - 1], owned, id);
      var v :| v in windows[..|windows| - 1] && v.id == id && WindowSets(windows, owned)[id] == UrlSet(WindowUrls(v));
      assert v in windows;
    }
  }

  /** With distinct window ids the table does not depend on their order. */
  lemma {:induction false} WindowSetsOf(windows: seq<Window>, owned: set<WindowId>, w: Window)
    requires forall i, j :: 0 <= i < j < |windows| ==> windows[i].id != windows[j].id
    requires w in windows && w.id !in owned && UrlSet(WindowUrls(w)) != {}
    ensures w.id in WindowSets(windows, owned) && WindowSets(windows, owned)[w.id] == UrlSet(WindowUrls(w))
  {
    var n := |windows| - 1;
    if windows[n] != w {
      var i :| 0 <= i < |windows| && windows[i] == w;
      assert windows[..n][i] == w;
      WindowSetsOf(windows[..n], owned, w);
    }
  }

  ghost function RowKeys(r: SavedRow): set<string> {
    UrlSet(LoadedUrls(r.tabs))
  }

  ghost predicate IsCandidate(rows: seq<SavedRow>, sets: map<WindowId, set<string>>, threshold: real, c: Candidate) {
    c.window in sets &&
    exists r :: r in rows && r.id == c.row && RowKeys(r) != {} &&
      c.score == JaccardIndex(RowKeys(r), sets[c.window]) >= threshold
  }

  ghost predicate ListsCandidates(rows: seq<SavedRow>, sets: map<WindowId, set<string>>, threshold: real,
                                  cs: seq<Candidate>) {
    StrictlySorted(cs) && forall c :: c in cs <==> IsCandidate(rows, sets, threshold, c)
  }

  method CollectCandidates(rows: seq<SavedRow>, sets: map<WindowId, set<string>>, threshold: real)
    returns (cs: seq<Candidate>)
    requires DistinctRows(rows)
    ensures NoDuplicates(cs)
    ensures forall c :: c in cs <==> IsCandidate(rows, sets, threshold, c)
  {
    cs := [];
    for n := 0 to |rows|
      invariant NoDuplicates(cs)
      invariant forall c :: c in cs <==> IsCandidate(rows[..n], sets, threshold, c)
    {
      var r := rows[n];
      var keys := ComputeUrlSet(LoadedUrls(r.tabs));
      ghost var prior := cs;
      assert rows[..n + 1] == rows[..n] + [r];
      assert forall x :: x in rows[..n + 1] <==> x in rows[..n] || x == r;
      if |keys| == 0 {
        assert forall c ::
                 IsCandidate(rows[..n + 1], sets, threshold, c) <==> IsCandidate(rows[..n], sets, threshold, c);
        continue;
      }
      forall c | c in prior ensures c.row != r.id {
        var q :| q in rows[..n] && q.id == c.row;
        var j :| 0 <= j < n && rows[j] == q;
      }
      var rest := sets.Keys;
      while rest != {}
        invariant rest <= sets.Keys
        invariant NoDuplicates(cs)
        invariant forall c :: c in cs <==> c in prior || (c.window in sets.Keys - rest && c.row == r.id &&
                                                          c.score == JaccardIndex(keys, sets[c.window]) >= threshold)
        decreases |rest|
      {
        var id :| id in rest;
        var score := Jaccard(keys, sets[id]);
        if score >= threshold {
          var c := Candidate(id, r.id, score);
          cs := cs + [c];
        }
        rest := rest - {id};
      }
      forall c ensures c in cs <==> IsCandidate(rows[..n + 1], sets, threshold, c) {
        if c in cs && c !in prior {
          assert r in rows[..n + 1];
        }
      }
    }
    assert rows[..|rows|] == rows;
  }

  lemma SortedCandidatesUnique(rows: seq<SavedRow>, sets: map<WindowId, set<string>>, threshold: real,
                               a: seq<Candidate>, b: seq<Candidate>)
    requires ListsCandidates(rows, sets, threshold, a) && ListsCandidates(rows, sets, threshold, b)
    ensures a == b
  {
    SortedUnique(a, b);
  }

  // --- greedy matching ---------------------------------------------------

  datatype Greed = Greed(usedWindows: set<WindowId>, usedRows: set<RowId>, matches: map<WindowId, RowId>)

  predicate Free(st: Greed, c: Candidate) {
    c.window !in st.usedWindows && c.row !in st.usedRows
  }

  predicate Shares(a: Candidate, b: Candidate) {
    a.window == b.window || a.row == b.row
  }

  /** Equal-score candidates that compete with `c` and are still available. */
  predicate Rival(st: Greed, c: Candidate, o: Candidate) {
    o != c && o.score == c.score && Free(st, o) && Shares(o, c)
  }

  ghost function Rivals(cs: seq<Candidate>, st: Greed, c: Candidate): set<Candidate> {
    set o | o in cs && Rival(st, c, o)
  }

  ghost function Consider(cs: seq<Candidate>, st: Greed, c: Candidate): Greed {
    if !Free(st, c) then st
    else
      var rivals := Rivals(cs, st, c);
      Greed(st.usedWindows + {c.window} + (set o | o in rivals :: o.window),
            st.usedRows + {c.row} + (set o | o in rivals :: o.row),
            if rivals == {} then st.matches[c.window := c.row] else st.matches)
  }

  ghost function Greedy(cs: seq<Candidate>, n: nat): Greed
    requires n <= |cs|
  {
    if n == 0 then Greed({}, {}, map[]) else Consider(cs, Greedy(cs, n - 1), cs[n - 1])
  }

  method CollectRivals(cs: seq<Candidate>, st: Greed, c: Candidate) returns (rivals: seq<Candidate>)
    ensures Elements(rivals) == Rivals(cs, st, c)
  {
    rivals := [];
    for k := 0 to |cs|
      invariant Elements(rivals) == Rivals(cs[..k], st, c)
    {
      var o := cs[k];
      assert cs[..k + 1] == cs[..k] + [o];
      assert forall x :: x in cs[..k + 1] <==> x in cs[..k] || x == o;
      if o == c || o.score != c.score || o.window in st.usedWindows || o.row in st.usedRows {
        assert Rivals(cs[..k + 1], st, c) == Rivals(cs[..k], st, c);
        continue;
      }
      if o.window == c.window || o.row == c.row {
        assert Rivals(cs[..k + 1], st, c) == Rivals(cs[..k], st, c) + {o};
        rivals := rivals + [o];
      } else {
        assert Rivals(cs[..k + 1], st, c) == Rivals(cs[..k], st, c);
      }
    }
    assert cs[..|cs|] == cs;
  }

  method ApplyPick(cs: seq<Candidate>, st: Greed, c: Candidate) returns (after: Greed)
    requires Free(st, c)
    ensures after == Consider(cs, st, c)
  {
    var rivals := CollectRivals(cs, st, c);
    ghost var picked := Rivals(cs, st, c);
    assert forall o :: o in rivals <==> o in picked by {
      assert forall o :: o in rivals <==> o in Elements(rivals);
    }
    var usedWindows, usedRows := st.usedWindows + {c.window}, st.usedRows + {c.row};
    if |rivals| == 0 {
      assert picked == {};
      return Greed(usedWindows, usedRows, st.matches[c.window := c.row]);
    }
    assert rivals[0] in picked;
    for k := 0 to |rivals|
      invariant usedWindows == st.usedWindows + {c.window} + set o | o in rivals[..k] :: o.window
      invariant usedRows == st.usedRows + {c.row} + set o | o in rivals[..k] :: o.row
    {
      var o := rivals[k];
      assert forall x :: x in rivals[..k + 1] <==> x in rivals[..k] || x == o;
      assert (set x | x in rivals[..k + 1] :: x.window) == (set x | x in rivals[..k] :: x.window) + {o.window};
      assert (set x | x in rivals[..k + 1] :: x.row) == (set x | x in rivals[..k] :: x.row) + {o.row};
      usedWindows, usedRows := usedWindows + {o.window}, usedRows + {o.row};
    }
    assert rivals[..|rivals|] == rivals;
    assert (set x | x in rivals :: x.window) == (set x | x in picked :: x.window);
    assert (set x | x in rivals :: x.row) == (set x | x in picked :: x.row);
    after := Greed(usedWindows, usedRows, st.matches);
  }

  /** The greedy matching over the sorted listing of the candidates. */
  ghost predicate IsMatching(rows: seq<SavedRow>, windows: seq<Window>, owned: set<WindowId>, threshold: real,
                             matches: map<WindowId, RowId>) {
    exists cs :: ListsCandidates(rows, WindowSets(windows, owned), threshold, cs) && matches == Greedy(cs, |cs|).matches
  }

  /** The matching of rows to unowned windows. */
  method MatchRestored(rows: seq<SavedRow>, windows: seq<Window>, owned: set<WindowId>, threshold: real)
    returns (matches: map<WindowId, RowId>, ghost cs: seq<Candidate>)
    requires DistinctRows(rows)
    ensures ListsCandidates(rows, WindowSets(windows, owned), threshold, cs) && matches == Greedy(cs, |cs|).matches
    ensures IsMatching(rows, windows, owned, threshold, matches)
  {
    var sets: map<WindowId, set<string>> := map[];
    for i := 0 to |windows|
      invariant sets == WindowSets(windows[..i], owned)
    {
      var w := windows[i];
      assert windows[..i + 1][..i] == windows[..i];
      if w.id in owned {
        continue;
      }
      var keys := ComputeUrlSet(WindowUrls(w));
      if |keys| > 0 {
        sets := sets[w.id := keys];
      }
    }
    assert windows[..|windows|] == windows;

    var collected := CollectCandidates(rows, sets, threshold);
    var sorted := SortCandidates(collected);
    cs := sorted;

    var st := Greed({}, {}, map[]);
    for i := 0 to |sorted|
      invariant st == Greedy(sorted, i)
    {
      var c := sorted[i];
      if c.window in st.usedWindows || c.row in st.usedRows {
        continue;
      }
      st := ApplyPick(sorted, st, c);
    }
    matches := st.matches;
  }
}
