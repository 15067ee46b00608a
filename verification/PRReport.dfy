/** What one activity sync reports and records, said of the answers it got. */
module PRReport {
  import opened BrowserTypes
  import opened PRActivity
  import opened PRActivityRuns

  // --- check runs ------------------------------------------------------------

  predicate Succeeded(run: CheckRun) {
    run.completed && (run.conclusion == "success" || run.conclusion == "neutral" || run.conclusion == "skipped")
  }

  predicate Unsuccessful(run: CheckRun) {
    run.completed && !Succeeded(run)
  }

  lemma FailedMeansUnsuccessful(run: CheckRun)
    ensures FailedRun(run) <==> Unsuccessful(run)
  {
  }

  /** There are runs, and all have finished. */
  predicate Finished(runs: seq<CheckRun>) {
    runs != [] && forall r :: r in runs ==> r.completed
  }

  predicate AllSucceeded(runs: seq<CheckRun>) {
    forall r :: r in runs ==> Succeeded(r)
  }

  /** `names` are the names of the runs that finished without success, in their
      order. */
  ghost predicate NamesFailed(runs: seq<CheckRun>, names: seq<string>) {
    exists order :: FailedAt(runs, names, order)
  }

  ghost predicate FailedAt(runs: seq<CheckRun>, names: seq<string>, order: seq<nat>) {
    && |order| == |names|
    && (forall i :: 0 <= i < |order| ==> order[i] < |runs| && names[i] == runs[order[i]].name)
    && Increasing(order)
    && (forall k :: 0 <= k < |runs| ==> (k in order <==> Unsuccessful(runs[k])))
  }

  lemma {:induction false} FailedRunsAreNamed(runs: seq<CheckRun>) returns (order: seq<nat>)
    ensures FailedAt(runs, FailedRuns(runs), order)
  {
    order := [];
    if runs != [] {
      var n := |runs| - 1;
      var before := FailedRunsAreNamed(runs[..n]);
      FailedMeansUnsuccessful(runs[n]);
      order := WithPosition(before, n, Unsuccessful(runs[n]));
      OneMoreRun(runs, FailedRuns(runs[..n]), before);
    }
  }

  lemma OneMoreRun(runs: seq<CheckRun>, names: seq<string>, before: seq<nat>)
    requires runs != [] && FailedAt(runs[..|runs| - 1], names, before)
    ensures var n := |runs| - 1;
            FailedAt(runs, names + if Unsuccessful(runs[n]) then [runs[n].name] else [],
                     WithPosition(before, n, Unsuccessful(runs[n])))
  {
    var n := |runs| - 1;
    PositionAdded(before, n, Unsuccessful(runs[n]));
    assert forall k :: 0 <= k < n ==> runs[..n][k] == runs[k];
    assert names + [] == names;
  }

  lemma NamedOnce(runs: seq<CheckRun>, a: seq<string>, b: seq<string>)
    requires NamesFailed(runs, a) && NamesFailed(runs, b)
    ensures a == b
  {
    var p :| FailedAt(runs, a, p);
    var q :| FailedAt(runs, b, q);
    forall k ensures k in p <==> k in q {
      if k in p || k in q {
        assert 0 <= k < |runs|;
      }
    }
    SameIncreasing(p, q);
  }

  lemma InitOf(p: seq<nat>, k: nat)
    requires Increasing(p) && p != []
    ensures k in p[..|p| - 1] <==> k in p && k != p[|p| - 1]
    ensures k in p ==> k <= p[|p| - 1]
  {
    if k in p {
      var i :| 0 <= i < |p| && p[i] == k;
      assert i < |p| - 1 ==> p[..|p| - 1][i] == k;
    }
  }

  lemma {:induction false} SameIncreasing(p: seq<nat>, q: seq<nat>)
    requires Increasing(p) && Increasing(q) && forall k :: k in p <==> k in q
    ensures p == q
  {
    assert p != [] ==> p[|p| - 1] in q;
    assert q != [] ==> q[|q| - 1] in p;
    if p != [] {
      var p', q' := p[..|p| - 1], q[..|q| - 1];
      InitOf(p, q[|q| - 1]);
      InitOf(q, p[|p| - 1]);
      forall k ensures k in p' <==> k in q' {
        InitOf(p, k);
        InitOf(q, k);
      }
      SameIncreasing(p', q');
    }
  }

  /** The state that was recorded for this very commit, if it was a final one. */
  predicate RecordedFinal(pr: PullRequest, state: ChecksState) {
    pr.checksHead == pr.headSHA && pr.checksState == state && (state == Passed || state == Failed)
  }

  lemma StateIff(runs: seq<CheckRun>)
    ensures StateOfRuns(runs) == if Finished(runs) then (if AllSucceeded(runs) then Passed else Failed)
                                 else if exists r :: r in runs && Unsuccessful(r) then Failing else Pending
  {
    forall r | r in runs ensures FailedRun(r) <==> Unsuccessful(r) {
      FailedMeansUnsuccessful(r);
    }
    if exists r :: r in runs && FailedRun(r) {
      var r :| r in runs && FailedRun(r);
      assert Unsuccessful(r);
    }
  }

  /** A rollup is due: there were checks on record, the runs of the head commit
      have all finished, and how they ended is not on record for it yet. */
  predicate RollupDue(pr: PullRequest, runs: seq<CheckRun>, state: ChecksState) {
    && pr.headSHA != "" && pr.checksHead != "" && Finished(runs)
    && state == (if AllSucceeded(runs) then Passed else Failed) && !RecordedFinal(pr, state)
  }

  /** A successful sync reports the rollup of the head commit exactly when it is
      due, with the names of the failed runs, and last of all. */
  lemma RollupToldIff(pr: PullRequest, me: string, answers: Answers, a: Activity)
    requires Succeeds(pr, answers) && a.ChecksActivity?
    ensures a in Report(pr, me, answers) <==>
              && a.head == pr.headSHA && pr.headSHA != "" && RollupDue(pr, answers.runs.value, a.state)
              && NamesFailed(answers.runs.value, a.failed)
    ensures forall i :: 0 <= i < |Report(pr, me, answers)| - 1 ==> !Report(pr, me, answers)[i].ChecksActivity?
  {
    OnlyChecksEvents(pr, me, answers, a);
    if pr.headSHA != "" {
      var runs := answers.runs.value;
      var order := FailedRunsAreNamed(runs);
      if NamesFailed(runs, a.failed) {
        NamedOnce(runs, a.failed, FailedRuns(runs));
      }
      DueIff(pr, answers);
    }
  }

  lemma OnlyChecksEvents(pr: PullRequest, me: string, answers: Answers, a: Activity)
    requires Succeeds(pr, answers) && a.ChecksActivity?
    ensures a in Report(pr, me, answers) <==> a in ChecksEvents(pr, answers)
    ensures forall i :: 0 <= i < |Report(pr, me, answers)| - 1 ==> !Report(pr, me, answers)[i].ChecksActivity?
  {
    var posts := PostEvents(pr, me, answers.reviews.value, answers.comments.value);
    assert forall i :: 0 <= i < |posts| ==> !posts[i].ChecksActivity?;
    assert |ChecksEvents(pr, answers)| <= 1;
  }

  lemma DueIff(pr: PullRequest, answers: Answers)
    requires Succeeds(pr, answers) && pr.headSHA != ""
    ensures var state := if AllSucceeded(answers.runs.value) then Passed else Failed;
            ChecksEvents(pr, answers) ==
            if RollupDue(pr, answers.runs.value, state)
            then [ChecksActivity(pr.headSHA, state, FailedRuns(answers.runs.value))] else []
  {
    StateIff(answers.runs.value);
  }

  /** So the first finished rollup of a commit is told, whatever was told of the
      commit before it. */
  lemma FinishedIsTold(pr: PullRequest, me: string, answers: Answers, state: ChecksState) returns (names: seq<string>)
    requires Succeeds(pr, answers) && pr.headSHA != "" && RollupDue(pr, answers.runs.value, state)
    ensures NamesFailed(answers.runs.value, names)
    ensures ChecksActivity(pr.headSHA, state, names) in Report(pr, me, answers)
  {
    names := FailedRuns(answers.runs.value);
    var order := FailedRunsAreNamed(answers.runs.value);
    RollupToldIff(pr, me, answers, ChecksActivity(pr.headSHA, state, names));
  }

  /** A successful sync records for the head commit how its runs ended, or keeps
      what it had recorded as final while they have not, and nothing without a
      head commit. */
  lemma RecordsChecks(pr: PullRequest, answers: Answers)
    requires Succeeds(pr, answers)
    ensures var after := Updated(pr, answers);
            if pr.headSHA == "" then after.checksHead == pr.checksHead && after.checksState == pr.checksState
            else
              var runs := answers.runs.value;
              && after.checksHead == pr.headSHA
              && if Finished(runs) then after.checksState == (if AllSucceeded(runs) then Passed else Failed)
                 else if RecordedFinal(pr, pr.checksState) then after.checksState == pr.checksState
                 else after.checksState == if exists r :: r in runs && Unsuccessful(r) then Failing
                                           else Pending
  {
    if pr.headSHA != "" {
      StateIff(answers.runs.value);
    }
  }

  /** It records that there is a baseline and the highest post seen, and changes
      neither title nor head. */
  lemma RecordsPosts(pr: PullRequest, answers: Answers)
    requires Succeeds(pr, answers)
    ensures var after := Updated(pr, answers);
            && after.title == pr.title && after.headSHA == pr.headSHA && after.baselined
            && IsHighest(pr.lastReview, answers.reviews.value, after.lastReview)
            && IsHighest(pr.lastComment, answers.comments.value, after.lastComment)
  {
  }

  predicate IsHighest(mark: int, posts: seq<Post>, high: int) {
    && high >= mark && (forall p :: p in posts ==> p.id <= high)
    && (high == mark || exists p :: p in posts && p.id == high)
  }

  // --- the order of a report ----------------------------------------------------

  /** Positions of the posts that are news: above the watermark of a baselined
      pull request, by somebody else. */
  ghost predicate NewsAt(pr: PullRequest, mark: int, me: string, posts: seq<Post>, order: seq<nat>) {
    && Increasing(order)
    && (forall i :: 0 <= i < |order| ==> order[i] < |posts|)
    && (forall k :: 0 <= k < |posts| ==>
          (k in order <==> pr.baselined && posts[k].id > mark && posts[k].author != "" && posts[k].author != me))
  }

  lemma {:induction false} ReportableInOrder(pr: PullRequest, mark: int, me: string, posts: seq<Post>)
    returns (order: seq<nat>)
    ensures NewsAt(pr, mark, me, posts, order) && TakenAt(posts, ReportablePosts(pr, mark, me, posts), order)
  {
    order := [];
    if posts != [] {
      var n := |posts| - 1;
      var before := ReportableInOrder(pr, mark, me, posts[..n]);
      order := WithPosition(before, n, Reportable(pr, mark, me, posts[n]));
      OneMoreNews(pr, mark, me, posts, before);
      TakenOneMore(posts, ReportablePosts(pr, mark, me, posts[..n]), before);
    }
  }

  lemma OneMoreNews(pr: PullRequest, mark: int, me: string, posts: seq<Post>, before: seq<nat>)
    requires posts != [] && NewsAt(pr, mark, me, posts[..|posts| - 1], before)
    ensures NewsAt(pr, mark, me, posts, WithPosition(before, |posts| - 1, Reportable(pr, mark, me, posts[|posts| - 1])))
  {
    var n := |posts| - 1;
    PositionAdded(before, n, Reportable(pr, mark, me, posts[n]));
    assert forall k :: 0 <= k < n ==> posts[..n][k] == posts[k];
  }

  /** A successful sync reports the new reviews as listed, then the new comments
      from the last listed to the first, then at most a rollup. */
  lemma ReportIsOrdered(pr: PullRequest, me: string, answers: Answers)
    returns (reviews: seq<nat>, comments: seq<nat>)
    requires Succeeds(pr, answers)
    ensures NewsAt(pr, pr.lastReview, me, answers.reviews.value, reviews)
    ensures NewsAt(pr, pr.lastComment, me, answers.comments.value, comments)
    ensures var report, n := Report(pr, me, answers), |reviews| + |comments|;
            && n <= |report| <= n + 1
            && (forall i :: 0 <= i < |reviews| ==> report[i] == ReviewActivity(answers.reviews.value[reviews[i]]))
            && (forall i :: 0 <= i < |comments| ==>
                  report[n - 1 - i] == CommentActivity(answers.comments.value[comments[i]]))
            && (|report| == n + 1 ==> report[n].ChecksActivity?)
  {
    reviews := ReportableInOrder(pr, pr.lastReview, me, answers.reviews.value);
    comments := ReportableInOrder(pr, pr.lastComment, me, answers.comments.value);
  }

  // --- what a run logs -------------------------------------------------------------

  /** The activities told in a log, in order. */
  function ToldIn(log: seq<Entry>): seq<Activity> {
    if log == [] then []
    else ToldIn(log[..|log| - 1]) +
         match log[|log| - 1]
         case Told(a) => [a]
         case HeadRecorded(_) => []
  }

  lemma {:induction false} ToldInBoth(a: seq<Entry>, b: seq<Entry>)
    ensures ToldIn(a + b) == ToldIn(a) + ToldIn(b)
  {
    if b == [] {
      assert a + b == a;
    } else {
      assert (a + b)[..|a + b| - 1] == a + b[..|b| - 1];
      ToldInBoth(a, b[..|b| - 1]);
    }
  }

  lemma {:induction false} ToldInAll(activities: seq<Activity>)
    ensures ToldIn(TellAll(activities)) == activities
  {
    if activities != [] {
      var init := activities[..|activities| - 1];
      ToldInAll(init);
      assert TellAll(activities)[..|activities| - 1] == TellAll(init);
    }
  }

  lemma ToldInThree(a: seq<Activity>, head: seq<Entry>, b: seq<Activity>)
    requires ToldIn(head) == []
    ensures ToldIn(TellAll(a) + head + TellAll(b)) == a + b
  {
    ToldInBoth(TellAll(a) + head, TellAll(b));
    ToldInBoth(TellAll(a), head);
    ToldInAll(a);
    ToldInAll(b);
  }

  lemma EntriesTellReport(pr: PullRequest, me: string, answers: Answers)
    requires ApiOk(pr, answers)
    ensures ToldIn(Entries(pr, me, answers)) == Report(pr, me, answers)
  {
    var head := if Updated(pr, answers).checksHead != pr.checksHead then [HeadRecorded(pr.headSHA)] else [];
    assert ToldIn(head) == [];
    ToldInThree(PostEvents(pr, me, answers.reviews.value, answers.comments.value), head, ChecksEvents(pr, answers));
  }

  /** A run logs, sync by sync, what the syncs report. */
  lemma LogTellsReports(w: World, answers: Answers, me: string)
    ensures var log := Next(w, SyncActivity(answers), me).log;
            ToldIn(log) == ToldIn(w.log) +
            if w.copy.Some? && Succeeds(w.copy.value, answers) then Report(w.copy.value, me, answers) else []
  {
    if w.copy.Some? && Succeeds(w.copy.value, answers) {
      EntriesTellReport(w.copy.value, me, answers);
      ToldInBoth(w.log, Entries(w.copy.value, me, answers));
    }
  }

  /** The two kinds of sync write disjoint columns. */
  lemma ColumnsWritten(a: PullRequest, b: PullRequest)
    ensures WithActivityOf(a, b) ==
            PullRequest(a.title, a.headSHA, b.baselined, b.lastReview, b.lastComment, b.checksHead, b.checksState)
  {
  }
}
