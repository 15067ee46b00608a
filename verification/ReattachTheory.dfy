/** What the greedy reattachment guarantees about its result, for every set of
    rows and windows. */
module ReattachTheory {
  import opened BrowserTypes
  import opened Reattach

  ghost function Final(cs: seq<Candidate>): Greed {
    Greedy(cs, |cs|)
  }

  lemma {:induction false} GreedyGrows(cs: seq<Candidate>, i: nat, j: nat)
    requires i <= j <= |cs|
    ensures Greedy(cs, i).usedWindows <= Greedy(cs, j).usedWindows
    ensures Greedy(cs, i).usedRows <= Greedy(cs, j).usedRows
    ensures Greedy(cs, i).matches.Keys <= Greedy(cs, j).matches.Keys
    ensures forall w :: w in Greedy(cs, i).matches ==> Greedy(cs, j).matches[w] == Greedy(cs, i).matches[w]
    decreases j
  {
    MatchedIsUsed(cs, i);
    if i < j {
      GreedyGrows(cs, i, j - 1);
      MatchedIsUsed(cs, j - 1);
    }
  }

  lemma {:induction false} MatchedIsUsed(cs: seq<Candidate>, n: nat)
    requires n <= |cs|
    ensures forall w :: w in Greedy(cs, n).matches ==>
                          w in Greedy(cs, n).usedWindows && Greedy(cs, n).matches[w] in Greedy(cs, n).usedRows
  {
    if n > 0 {
      MatchedIsUsed(cs, n - 1);
    }
  }

  /** The pick `i` created a match: its pair was free and had no rival. */
  ghost predicate CleanPick(cs: seq<Candidate>, i: nat)
    requires i < |cs|
  {
    Free(Greedy(cs, i), cs[i]) && Rivals(cs, Greedy(cs, i), cs[i]) == {}
  }

  /** Every match was picked while both sides were free and no equal-score
      candidate sharing a side was still available. */
  lemma {:induction false} MatchHasPick(cs: seq<Candidate>, n: nat, w: WindowId) returns (i: nat)
    requires n <= |cs| && w in Greedy(cs, n).matches
    ensures i < n && cs[i].window == w && cs[i].row == Greedy(cs, n).matches[w] && CleanPick(cs, i)
  {
    var st, c := Greedy(cs, n - 1), cs[n - 1];
    if Free(st, c) && Rivals(cs, st, c) == {} && c.window == w {
      i := n - 1;
    } else {
      i := MatchHasPick(cs, n - 1, w);
    }
  }

  /** Two windows never share a row. */
  lemma {:induction false} MatchingInjective(cs: seq<Candidate>, n: nat, v: WindowId, w: WindowId)
    requires n <= |cs| && v in Greedy(cs, n).matches && w in Greedy(cs, n).matches && v != w
    ensures Greedy(cs, n).matches[v] != Greedy(cs, n).matches[w]
  {
    var i := MatchHasPick(cs, n, v);
    var j := MatchHasPick(cs, n, w);
    var first, second := if i < j then i else j, if i < j then j else i;
    GreedyGrows(cs, first + 1, second);
  }

  /** The loop leaves no candidate with both sides unconsumed. */
  lemma {:induction false} NoFreeCandidate(cs: seq<Candidate>, i: nat, n: nat)
    requires i < n <= |cs|
    ensures !Free(Greedy(cs, n), cs[i])
  {
    GreedyGrows(cs, i + 1, n);
  }

  /** `w` was given up because two equal-score candidates that share a side
      competed for it; both score at least `floor`. */
  ghost predicate WindowTied(cs: seq<Candidate>, w: WindowId, floor: real) {
    exists c, o ::
      c in cs && o in cs && c != o && c.score == o.score >= floor && Shares(c, o) && (c.window == w || o.window == w)
  }

  ghost predicate RowTied(cs: seq<Candidate>, r: RowId, floor: real) {
    exists c, o ::
      c in cs && o in cs && c != o && c.score == o.score >= floor && Shares(c, o) && (c.row == r || o.row == r)
  }

  ghost predicate WindowSettled(cs: seq<Candidate>, n: nat, w: WindowId, floor: real)
    requires n <= |cs|
  {
    (exists i :: 0 <= i < |cs| && cs[i].window == w && cs[i].score >= floor &&
                 w in Greedy(cs, n).matches && Greedy(cs, n).matches[w] == cs[i].row)
    || (w !in Greedy(cs, n).matches && WindowTied(cs, w, floor))
  }

  ghost predicate RowSettled(cs: seq<Candidate>, n: nat, r: RowId, floor: real)
    requires n <= |cs|
  {
    (exists i :: 0 <= i < |cs| && cs[i].row == r && cs[i].score >= floor &&
                 cs[i].window in Greedy(cs, n).matches && Greedy(cs, n).matches[cs[i].window] == r)
    || (r !in Greedy(cs, n).matches.Values && RowTied(cs, r, floor))
  }

  /** A consumed window is matched, or was lost to a tie, at the level of
      some earlier pick. */
  lemma {:induction false} UsedWindowSettled(cs: seq<Candidate>, n: nat, w: WindowId)
    requires StrictlySorted(cs) && 0 < n <= |cs| && w in Greedy(cs, n).usedWindows
    ensures WindowSettled(cs, n, w, cs[n - 1].score)
  {
    var st, c := Greedy(cs, n - 1), cs[n - 1];
    MatchedIsUsed(cs, n - 1);
    if w in st.usedWindows {
      UsedWindowSettled(cs, n - 1, w);
      assert Before(cs[n - 2], cs[n - 1]);
    } else if Rivals(cs, st, c) == {} {
      assert cs[n - 1].window == w;
    } else {
      var o :| o in Rivals(cs, st, c) && (c.window == w || o.window == w) by {
        if c.window == w {
          var any :| any in Rivals(cs, st, c);
        }
      }
      assert c in cs && o in cs && Shares(c, o);
    }
  }

  lemma {:induction false} UsedRowSettled(cs: seq<Candidate>, n: nat, r: RowId)
    requires StrictlySorted(cs) && 0 < n <= |cs| && r in Greedy(cs, n).usedRows
    ensures RowSettled(cs, n, r, cs[n - 1].score)
  {
    var st, c := Greedy(cs, n - 1), cs[n - 1];
    var now := Greedy(cs, n);
    MatchedIsUsed(cs, n - 1);
    if r in st.usedRows {
      UsedRowSettled(cs, n - 1, r);
      assert Before(cs[n - 2], cs[n - 1]);
      if r in st.matches.Values {
        var i :| 0 <= i < |cs| && cs[i].row == r && cs[i].score >= cs[n - 2].score &&
                 cs[i].window in st.matches && st.matches[cs[i].window] == r;
        GreedyGrows(cs, n - 1, n);
      } else {
        assert r !in now.matches.Values;
      }
    } else if Rivals(cs, st, c) == {} && Free(st, c) {
      assert now.matches[c.window] == r;
    } else {
      var o :| o in Rivals(cs, st, c) && (c.row == r || o.row == r) by {
        if c.row == r {
          var any :| any in Rivals(cs, st, c);
        }
      }
      assert c in cs && o in cs && Shares(c, o);
      assert r !in now.matches.Values;
    }
  }

  /** Every candidate pair is accounted for: its window or its row ends up in a
      match scoring at least as high, or was given up to a tie at least as
      high. */
  lemma {:induction false} EveryCandidateSettled(cs: seq<Candidate>, k: nat)
    requires StrictlySorted(cs) && k < |cs|
    ensures WindowSettled(cs, |cs|, cs[k].window, cs[k].score) || RowSettled(cs, |cs|, cs[k].row, cs[k].score)
  {
    var o := cs[k];
    NoFreeCandidate(cs, k, k + 1);
    GreedyGrows(cs, k + 1, |cs|);
    if o.window in Greedy(cs, k + 1).usedWindows {
      UsedWindowSettled(cs, k + 1, o.window);
      SettledWindowStays(cs, k + 1, o.window, o.score);
    } else {
      UsedRowSettled(cs, k + 1, o.row);
      SettledRowStays(cs, k + 1, o.row, o.score);
    }
  }

  /** A pair matched at the end whose window or row was used after `n`
      candidates had been matched by then. */
  lemma MatchedByThen(cs: seq<Candidate>, n: nat, w: WindowId)
    requires n <= |cs| && w in Final(cs).matches
    requires w in Greedy(cs, n).usedWindows || Final(cs).matches[w] in Greedy(cs, n).usedRows
    ensures w in Greedy(cs, n).matches && Greedy(cs, n).matches[w] == Final(cs).matches[w]
  {
    var i := MatchHasPick(cs, |cs|, w);
    if i < n {
      GreedyGrows(cs, i + 1, n);
    } else {
      GreedyGrows(cs, n, i);
    }
    GreedyGrows(cs, n, |cs|);
  }

  lemma {:induction false} SettledWindowStays(cs: seq<Candidate>, n: nat, w: WindowId, floor: real)
    requires n <= |cs| && w in Greedy(cs, n).usedWindows && WindowSettled(cs, n, w, floor)
    ensures WindowSettled(cs, |cs|, w, floor)
  {
    GreedyGrows(cs, n, |cs|);
    if w in Final(cs).matches {
      MatchedByThen(cs, n, w);
    }
  }

  lemma {:induction false} SettledRowStays(cs: seq<Candidate>, n: nat, r: RowId, floor: real)
    requires n <= |cs| && r in Greedy(cs, n).usedRows && RowSettled(cs, n, r, floor)
    ensures RowSettled(cs, |cs|, r, floor)
  {
    GreedyGrows(cs, n, |cs|);
    if r in Final(cs).matches.Values {
      var w :| w in Final(cs).matches && Final(cs).matches[w] == r;
      MatchedByThen(cs, n, w);
    }
  }

  /** Score of a matched pair. */
  ghost predicate MatchedAt(cs: seq<Candidate>, c: Candidate) {
    c in cs && c.window in Final(cs).matches && Final(cs).matches[c.window] == c.row
  }

  /** No candidate scores strictly higher than the matches of both its window
      and its row. */
  lemma {:induction false} NoBlockingCandidate(cs: seq<Candidate>, o: Candidate, a: Candidate, b: Candidate)
    requires StrictlySorted(cs) && o in cs
    requires MatchedAt(cs, a) && a.window == o.window
    requires MatchedAt(cs, b) && b.row == o.row
    requires SamePairSameScore(cs)
    ensures !(o.score > a.score && o.score > b.score)
  {
    var k :| 0 <= k < |cs| && cs[k] == o;
    EveryCandidateSettled(cs, k);
    if WindowSettled(cs, |cs|, o.window, o.score) {
      assert Final(cs).matches[a.window] == a.row;
    } else {
      var i :| 0 <= i < |cs| && cs[i].row == o.row && cs[i].score >= o.score &&
               cs[i].window in Final(cs).matches && Final(cs).matches[cs[i].window] == o.row;
      if cs[i].window != b.window {
        MatchingInjective(cs, |cs|, cs[i].window, b.window);
      }
    }
  }

  ghost predicate SamePairSameScore(cs: seq<Candidate>) {
    forall c, d :: c in cs && d in cs && c.window == d.window && c.row == d.row ==> c.score == d.score
  }

  /** With distinct row ids one pair has one score. */
  lemma OneScorePerPair(rows: seq<SavedRow>, sets: map<WindowId, set<string>>, threshold: real, cs: seq<Candidate>)
    requires DistinctRows(rows) && ListsCandidates(rows, sets, threshold, cs)
    ensures SamePairSameScore(cs)
  {
    forall c, d | c in cs && d in cs && c.window == d.window && c.row == d.row ensures c.score == d.score {
      assert IsCandidate(rows, sets, threshold, c) && IsCandidate(rows, sets, threshold, d);
      var p :| p in rows && p.id == c.row && c.score == JaccardIndex(RowKeys(p), sets[c.window]);
      var q :| q in rows && q.id == d.row && d.score == JaccardIndex(RowKeys(q), sets[d.window]);
      var i :| 0 <= i < |rows| && rows[i] == p;
      var j :| 0 <= j < |rows| && rows[j] == q;
    }
  }

  /** No blocking pair: of the matching of rows with windows, no admissible pair
      scores strictly higher than the matches of both its window and its row. */
  lemma NoBlockingPair(rows: seq<SavedRow>, windows: seq<Window>, owned: set<WindowId>, threshold: real,
                       m: map<WindowId, RowId>, o: Candidate, a: Candidate, b: Candidate)
    requires DistinctRows(rows) && IsMatching(rows, windows, owned, threshold, m)
    requires forall c :: c in {o, a, b} ==> IsCandidate(rows, WindowSets(windows, owned), threshold, c)
    requires In(m, a) && a.window == o.window && In(m, b) && b.row == o.row
    ensures !(o.score > a.score && o.score > b.score)
  {
    var cs :| ListsCandidates(rows, WindowSets(windows, owned), threshold, cs) && m == Final(cs).matches;
    OneScorePerPair(rows, WindowSets(windows, owned), threshold, cs);
    NoBlockingCandidate(cs, o, a, b);
  }

  /** A match is never ambiguous: when its pair was picked, every other
      candidate of the same score that shares its window or its row had already
      lost one of its sides. */
  lemma {:induction false} NeverMatchesATie(cs: seq<Candidate>, w: WindowId) returns (i: nat)
    requires w in Final(cs).matches
    ensures i < |cs| && cs[i].window == w && cs[i].row == Final(cs).matches[w]
    ensures forall o :: o in cs && o != cs[i] && o.score == cs[i].score && Shares(o, cs[i]) ==> !Free(Greedy(cs, i), o)
  {
    i := MatchHasPick(cs, |cs|, w);
    assert forall o :: o in cs && Rival(Greedy(cs, i), cs[i], o) ==> o in Rivals(cs, Greedy(cs, i), cs[i]);
  }

  // --- without ties the result is the stable matching ----------------------

  ghost predicate In(m: map<WindowId, RowId>, c: Candidate) {
    c.window in m && m[c.window] == c.row
  }

  /** A set of candidate pairs, no side used twice, in which every pair left
      out meets a strictly better pair that was taken. */
  ghost predicate StableMatching(cs: seq<Candidate>, m: map<WindowId, RowId>) {
    && (forall w :: w in m ==> exists c :: c in cs && c.window == w && c.row == m[w])
    && (forall v, w :: v in m && w in m && v != w ==> m[v] != m[w])
    && (forall o :: o in cs && !In(m, o) ==> exists p :: p in cs && In(m, p) && Shares(p, o) && p.score > o.score)
  }

  ghost predicate DistinctScores(cs: seq<Candidate>) {
    forall c, d :: c in cs && d in cs && c != d ==> c.score != d.score
  }

  lemma NoRivals(cs: seq<Candidate>, st: Greed, c: Candidate)
    requires DistinctScores(cs) && c in cs
    ensures Rivals(cs, st, c) == {}
  {}

  /** Without ties every used side is matched. */
  lemma {:induction false} UsedIsMatched(cs: seq<Candidate>, n: nat)
    requires DistinctScores(cs) && n <= |cs|
    ensures Greedy(cs, n).usedWindows == Greedy(cs, n).matches.Keys
    ensures Greedy(cs, n).usedRows == Greedy(cs, n).matches.Values
  {
    if n > 0 {
      UsedIsMatched(cs, n - 1);
      NoRivals(cs, Greedy(cs, n - 1), cs[n - 1]);
      var st, now, c := Greedy(cs, n - 1), Greedy(cs, n), cs[n - 1];
      if Free(st, c) {
        assert now.matches == st.matches[c.window := c.row];
        assert c.window in now.matches;
        forall r | r in now.usedRows ensures r in now.matches.Values {
          if r != c.row {
            var w :| w in st.matches && st.matches[w] == r;
            assert now.matches[w] == r;
          }
        }
      }
    }
  }

  /** Existence: the greedy result is stable. */
  lemma GreedyIsStable(cs: seq<Candidate>)
    requires StrictlySorted(cs) && DistinctScores(cs)
    ensures StableMatching(cs, Final(cs).matches)
  {
    var m := Final(cs).matches;
    forall w | w in m ensures exists c :: c in cs && c.window == w && c.row == m[w] {
      var i := MatchHasPick(cs, |cs|, w);
      assert cs[i] in cs;
    }
    forall v, w | v in m && w in m && v != w ensures m[v] != m[w] {
      MatchingInjective(cs, |cs|, v, w);
    }
    forall o | o in cs && !In(m, o) ensures exists p :: p in cs && In(m, p) && Shares(p, o) && p.score > o.score {
      var k :| 0 <= k < |cs| && cs[k] == o;
      EveryCandidateSettled(cs, k);
    }
  }

  /** Uniqueness: any stable matching is the greedy one. */
  lemma StableIsGreedy(cs: seq<Candidate>, m: map<WindowId, RowId>)
    requires StrictlySorted(cs) && DistinctScores(cs) && SamePairSameScore(cs) && StableMatching(cs, m)
    ensures m == Final(cs).matches
  {
    forall k | 0 <= k < |cs| && AgreeUpTo(cs, m, k) ensures AgreeUpTo(cs, m, k + 1) {
      AgreesOneMore(cs, m, k);
    }
    AgreesWithGreedy(cs, m, |cs|);
    SamePairsSameMap(cs, m, Final(cs).matches);
  }

  lemma MatchingIsGreedy(rows: seq<SavedRow>, windows: seq<Window>, owned: set<WindowId>, threshold: real,
                         cs: seq<Candidate>, m: map<WindowId, RowId>)
    requires ListsCandidates(rows, WindowSets(windows, owned), threshold, cs)
    ensures IsMatching(rows, windows, owned, threshold, m) <==> m == Final(cs).matches
  {
    if IsMatching(rows, windows, owned, threshold, m) {
      var other :| ListsCandidates(rows, WindowSets(windows, owned), threshold, other) && m == Final(other).matches;
      SortedUnique(cs, other);
    }
  }

  /** So without ties the matching of rows with windows is the one stable
      matching of their candidates. */
  lemma MatchingIffStable(rows: seq<SavedRow>, windows: seq<Window>, owned: set<WindowId>, threshold: real,
                          cs: seq<Candidate>, m: map<WindowId, RowId>)
    requires DistinctRows(rows) && ListsCandidates(rows, WindowSets(windows, owned), threshold, cs)
    requires DistinctScores(cs)
    ensures IsMatching(rows, windows, owned, threshold, m) <==> StableMatching(cs, m)
  {
    MatchingIsGreedy(rows, windows, owned, threshold, cs, m);
    OneScorePerPair(rows, WindowSets(windows, owned), threshold, cs);
    GreedyIsStable(cs);
    if StableMatching(cs, m) {
      StableIsGreedy(cs, m);
    }
  }

  lemma SamePairsSameMap(cs: seq<Candidate>, m: map<WindowId, RowId>, g: map<WindowId, RowId>)
    requires forall k :: 0 <= k < |cs| ==> (In(m, cs[k]) <==> In(g, cs[k]))
    requires forall w :: w in m ==> exists c :: c in cs && c.window == w && c.row == m[w]
    requires g == Final(cs).matches
    ensures m == g
  {
    forall w | w in m ensures w in g && g[w] == m[w] {
      var c :| c in cs && c.window == w && c.row == m[w];
      var k :| 0 <= k < |cs| && cs[k] == c;
      assert In(m, cs[k]);
    }
    forall w | w in g ensures w in m {
      var i := MatchHasPick(cs, |cs|, w);
      assert In(g, cs[i]);
    }
    assert m.Keys == g.Keys;
  }

  ghost predicate AgreeUpTo(cs: seq<Candidate>, m: map<WindowId, RowId>, n: nat)
    requires n <= |cs|
  {
    forall k :: 0 <= k < n ==> (In(m, cs[k]) <==> In(Greedy(cs, n).matches, cs[k]))
  }

  ghost predicate Rivalless(cs: seq<Candidate>, m: map<WindowId, RowId>) {
    StrictlySorted(cs) && DistinctScores(cs) && SamePairSameScore(cs) && StableMatching(cs, m)
  }

  lemma {:induction false} AgreesWithGreedy(cs: seq<Candidate>, m: map<WindowId, RowId>, n: nat)
    requires forall k :: 0 <= k < |cs| && AgreeUpTo(cs, m, k) ==> AgreeUpTo(cs, m, k + 1)
    requires n <= |cs|
    ensures AgreeUpTo(cs, m, n)
  {
    if n > 0 {
      AgreesWithGreedy(cs, m, n - 1);
    }
  }

  lemma AgreesOneMore(cs: seq<Candidate>, m: map<WindowId, RowId>, n: nat)
    requires Rivalless(cs, m) && n < |cs| && AgreeUpTo(cs, m, n)
    ensures AgreeUpTo(cs, m, n + 1)
  {
    LastAgrees(cs, m, n);
    EarlierAllUnchanged(cs, n);
    AgreeStep(cs, m, Greedy(cs, n).matches, Greedy(cs, n + 1).matches, n);
  }

  lemma LastAgrees(cs: seq<Candidate>, m: map<WindowId, RowId>, n: nat)
    requires Rivalless(cs, m) && n < |cs| && AgreeUpTo(cs, m, n)
    ensures In(m, cs[n]) <==> In(Greedy(cs, n + 1).matches, cs[n])
  {
    if Free(Greedy(cs, n), cs[n]) {
      FreeIsTaken(cs, m, n);
    } else {
      BlockedIsNotTaken(cs, m, n);
    }
  }

  lemma AgreeStep(cs: seq<Candidate>, m: map<WindowId, RowId>, g: map<WindowId, RowId>, g': map<WindowId, RowId>,
                  n: nat)
    requires n < |cs|
    requires forall k :: 0 <= k < n ==> (In(m, cs[k]) <==> In(g, cs[k]))
    requires forall k :: 0 <= k < n ==> (In(g, cs[k]) <==> In(g', cs[k]))
    requires In(m, cs[n]) <==> In(g', cs[n])
    ensures forall k :: 0 <= k < n + 1 ==> (In(m, cs[k]) <==> In(g', cs[k]))
  {}

  lemma EarlierAllUnchanged(cs: seq<Candidate>, n: nat)
    requires StrictlySorted(cs) && SamePairSameScore(cs) && n < |cs|
    ensures forall k :: 0 <= k < n ==> (In(Greedy(cs, n).matches, cs[k]) <==> In(Greedy(cs, n + 1).matches, cs[k]))
  {
    forall k | 0 <= k < n ensures In(Greedy(cs, n).matches, cs[k]) <==> In(Greedy(cs, n + 1).matches, cs[k]) {
      EarlierUnchanged(cs, k, n);
    }
  }

  lemma EarlierUnchanged(cs: seq<Candidate>, k: nat, n: nat)
    requires StrictlySorted(cs) && SamePairSameScore(cs) && k < n < |cs|
    ensures In(Greedy(cs, n).matches, cs[k]) <==> In(Greedy(cs, n + 1).matches, cs[k])
  {
    MatchedIsUsed(cs, n);
    DistinctPairs(cs, k, n);
  }

  lemma HigherIsEarlier(cs: seq<Candidate>, j: nat, n: nat)
    requires StrictlySorted(cs) && j < |cs| && n < |cs| && cs[j].score > cs[n].score
    ensures j < n
  {}

  lemma TakenBlocks(cs: seq<Candidate>, m: map<WindowId, RowId>, j: nat, n: nat)
    requires j < n < |cs| && AgreeUpTo(cs, m, n) && In(m, cs[j]) && Shares(cs[j], cs[n])
    ensures !Free(Greedy(cs, n), cs[n])
  {
    MatchedIsUsed(cs, n);
    assert In(Greedy(cs, n).matches, cs[j]);
  }

  lemma FreeIsTaken(cs: seq<Candidate>, m: map<WindowId, RowId>, n: nat)
    requires StrictlySorted(cs) && DistinctScores(cs) && StableMatching(cs, m)
    requires n < |cs| && AgreeUpTo(cs, m, n) && Free(Greedy(cs, n), cs[n])
    ensures In(m, cs[n]) && In(Greedy(cs, n + 1).matches, cs[n])
  {
    assert cs[n] in cs;
    NoRivals(cs, Greedy(cs, n), cs[n]);
    if !In(m, cs[n]) {
      var p :| p in cs && In(m, p) && Shares(p, cs[n]) && p.score > cs[n].score;
      var j :| 0 <= j < |cs| && cs[j] == p;
      HigherIsEarlier(cs, j, n);
      TakenBlocks(cs, m, j, n);
    }
  }

  lemma BlockedIsNotTaken(cs: seq<Candidate>, m: map<WindowId, RowId>, n: nat)
    requires StrictlySorted(cs) && DistinctScores(cs) && SamePairSameScore(cs) && StableMatching(cs, m)
    requires n < |cs| && AgreeUpTo(cs, m, n) && !Free(Greedy(cs, n), cs[n])
    ensures !In(m, cs[n]) && !In(Greedy(cs, n + 1).matches, cs[n])
  {
    TakenSide(cs, n);
    var g := Greedy(cs, n).matches;
    var j :| 0 <= j < n && In(g, cs[j]) && Shares(cs[j], cs[n]);
    NotBothIn(cs, m, j, n);
    if cs[n].window in g {
      var i := MatchHasPick(cs, n, cs[n].window);
      DistinctPairs(cs, i, n);
    }
  }

  lemma DistinctPairs(cs: seq<Candidate>, i: nat, n: nat)
    requires StrictlySorted(cs) && SamePairSameScore(cs) && i < n < |cs|
    ensures cs[i].window != cs[n].window || cs[i].row != cs[n].row
  {
    assert Before(cs[i], cs[n]);
    BeforeTotal(cs[i], cs[n]);
    assert cs[i] in cs && cs[n] in cs;
  }

  /** Two listed pairs that share a side cannot both be taken. */
  lemma NotBothIn(cs: seq<Candidate>, m: map<WindowId, RowId>, i: nat, j: nat)
    requires StrictlySorted(cs) && DistinctScores(cs) && StableMatching(cs, m) && i < j < |cs|
    requires Shares(cs[i], cs[j]) && SamePairSameScore(cs)
    ensures !(In(m, cs[i]) && In(m, cs[j]))
  {
    assert Before(cs[i], cs[j]);
    assert cs[i] in cs && cs[j] in cs;
    BeforeTotal(cs[i], cs[j]);
  }

  lemma TakenSide(cs: seq<Candidate>, n: nat)
    requires DistinctScores(cs) && n < |cs| && !Free(Greedy(cs, n), cs[n])
    ensures exists j :: 0 <= j < n && In(Greedy(cs, n).matches, cs[j]) && Shares(cs[j], cs[n])
  {
    UsedIsMatched(cs, n);
    var st := Greedy(cs, n);
    if cs[n].window in st.matches {
      var j := MatchHasPick(cs, n, cs[n].window);
    } else {
      var w :| w in st.matches && st.matches[w] == cs[n].row;
      var j := MatchHasPick(cs, n, w);
    }
  }

  /** Matches join a claimable window of the list to a listed row, at or above
      the threshold. */
  lemma {:induction false} MatchesAreAdmissible(rows: seq<SavedRow>, windows: seq<Window>, owned: set<WindowId>,
                                                threshold: real, cs: seq<Candidate>, w: WindowId)
    requires ListsCandidates(rows, WindowSets(windows, owned), threshold, cs) && w in Final(cs).matches
    ensures w !in owned
    ensures exists v, r :: v in windows && v.id == w && r in rows && r.id == Final(cs).matches[w] &&
                           JaccardIndex(RowKeys(r), UrlSet(WindowUrls(v))) >= threshold
  {
    var i := MatchHasPick(cs, |cs|, w);
    assert cs[i] in cs;
    var sets := WindowSets(windows, owned);
    WindowSetsAreClaimable(windows, owned, w);
    var v :| v in windows && v.id == w && sets[w] == UrlSet(WindowUrls(v));
    var r :| r in rows && r.id == cs[i].row && RowKeys(r) != {} &&
             cs[i].score == JaccardIndex(RowKeys(r), sets[w]) >= threshold;
  }

  ghost predicate SameElements<T(!new)>(a: seq<T>, b: seq<T>) {
    forall x :: x in a <==> x in b
  }

  ghost predicate DistinctWindows(windows: seq<Window>) {
    forall i, j :: 0 <= i < j < |windows| ==> windows[i].id != windows[j].id
  }

  lemma WindowSetsOrderFree(a: seq<Window>, b: seq<Window>, owned: set<WindowId>)
    requires SameElements(a, b) && DistinctWindows(a) && DistinctWindows(b)
    ensures WindowSets(a, owned) == WindowSets(b, owned)
  {
    WindowSetsIncluded(a, b, owned);
    WindowSetsIncluded(b, a, owned);
    assert WindowSets(a, owned).Keys == WindowSets(b, owned).Keys;
  }

  lemma WindowSetsIncluded(a: seq<Window>, b: seq<Window>, owned: set<WindowId>)
    requires SameElements(a, b) && DistinctWindows(a) && DistinctWindows(b)
    ensures forall id :: id in WindowSets(a, owned) ==>
                           id in WindowSets(b, owned) && WindowSets(a, owned)[id] == WindowSets(b, owned)[id]
  {
    forall id | id in WindowSets(a, owned)
      ensures id in WindowSets(b, owned) && WindowSets(a, owned)[id] == WindowSets(b, owned)[id]
    {
      WindowSetsAreClaimable(a, owned, id);
      var w :| w in a && w.id == id && WindowSets(a, owned)[id] == UrlSet(WindowUrls(w));
      WindowSetsOf(b, owned, w);
    }
  }

  /** The matching does not depend on the order in which rows and windows are
      listed. */
  lemma OrderIndependent(rows: seq<SavedRow>, rows': seq<SavedRow>, windows: seq<Window>, windows': seq<Window>,
                         owned: set<WindowId>, threshold: real, cs: seq<Candidate>, cs': seq<Candidate>)
    requires SameElements(rows, rows') && SameElements(windows, windows')
    requires DistinctWindows(windows) && DistinctWindows(windows')
    requires ListsCandidates(rows, WindowSets(windows, owned), threshold, cs)
    requires ListsCandidates(rows', WindowSets(windows', owned), threshold, cs')
    ensures Final(cs).matches == Final(cs').matches
  {
    WindowSetsOrderFree(windows, windows', owned);
    var sets := WindowSets(windows, owned);
    forall c ensures IsCandidate(rows, sets, threshold, c) <==> IsCandidate(rows', sets, threshold, c) {
    }
    SortedCandidatesUnique(rows, sets, threshold, cs, cs');
  }
}
