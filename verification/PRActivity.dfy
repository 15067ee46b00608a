/** Pull request activity: what one sync reports, what it persists, and what
    stays exact over any run of activity syncs and pull request syncs. */
module PRActivity {
  import opened BrowserTypes

  datatype ChecksState = Unset | Pending | Failing | Passed | Failed

  datatype PullRequest = PullRequest(
    title: string, headSHA: string,
    baselined: bool, lastReview: int, lastComment: int, checksHead: string, checksState: ChecksState)

  /** A review or an inline review comment. */
  datatype Post = Post(id: int, author: string, body: string)

  datatype CheckRun = CheckRun(name: string, completed: bool, conclusion: string)

  datatype Activity =
    | ReviewActivity(review: Post)
    | CommentActivity(comment: Post)
    | ChecksActivity(head: string, state: ChecksState, failed: seq<string>)

  predicate TerminalState(s: ChecksState) {
    s == Passed || s == Failed
  }

  predicate IgnoredAuthor(me: string, login: string) {
    login == "" || login == me
  }

  // --- new posts -------------------------------------------------------------

  /** What a post must be to be reported. */
  predicate Reportable(pr: PullRequest, mark: int, me: string, p: Post) {
    pr.baselined && p.id > mark && !IgnoredAuthor(me, p.author)
  }

  function ReportablePosts(pr: PullRequest, mark: int, me: string, posts: seq<Post>): seq<Post> {
    if posts == [] then []
    else
      var n := |posts| - 1;
      ReportablePosts(pr, mark, me, posts[..n]) + if Reportable(pr, mark, me, posts[n]) then [posts[n]] else []
  }

  function HighestId(mark: int, posts: seq<Post>): (high: int)
    ensures high >= mark && forall p :: p in posts ==> p.id <= high
    ensures high == mark || exists p :: p in posts && p.id == high
  {
    if posts == [] then mark
    else
      var n := |posts| - 1;
      var before := HighestId(mark, posts[..n]);
      assert forall p :: p in posts <==> p in posts[..n] || p == posts[n];
      if posts[n].id > before then posts[n].id else before
  }

  function Reversed<T(!new)>(s: seq<T>): (r: seq<T>)
    ensures |r| == |s| && forall i :: 0 <= i < |s| ==> r[i] == s[|s| - 1 - i]
    ensures forall x :: x in r <==> x in s
  {
    var r := seq(|s|, i requires 0 <= i < |s| => s[|s| - 1 - i]);
    assert forall i :: 0 <= i < |s| ==> s[i] == r[|s| - 1 - i];
    r
  }

  method NewPosts(pr: PullRequest, mark: int, me: string, posts: seq<Post>) returns (news: seq<Post>, watermark: int)
    ensures news == ReportablePosts(pr, mark, me, posts) && watermark == HighestId(mark, posts)
  {
    watermark := mark;
    news := [];
    for n := 0 to |posts|
      invariant news == ReportablePosts(pr, mark, me, posts[..n]) && watermark == HighestId(mark, posts[..n])
    {
      var p := posts[n];
      assert posts[..n + 1][..n] == posts[..n];
      if p.id > watermark {
        watermark := p.id;
      }
      if !pr.baselined || p.id <= mark {
        continue;
      }
      if IgnoredAuthor(me, p.author) {
        continue;
      }
      news := news + [p];
    }
    assert posts[..|posts|] == posts;
  }

  lemma {:induction false} ReportedExactly(pr: PullRequest, mark: int, me: string, posts: seq<Post>, p: Post)
    ensures p in ReportablePosts(pr, mark, me, posts) <==> p in posts && Reportable(pr, mark, me, p)
  {
    if posts != [] {
      var n := |posts| - 1;
      ReportedExactly(pr, mark, me, posts[..n], p);
      assert p in posts <==> p in posts[..n] || p == posts[n];
    }
  }

  predicate DistinctPosts(posts: seq<Post>) {
    forall i, j :: 0 <= i < j < |posts| ==> posts[i].id != posts[j].id
  }

  lemma {:induction false} ReportedDistinct(pr: PullRequest, mark: int, me: string, posts: seq<Post>)
    requires DistinctPosts(posts)
    ensures DistinctPosts(ReportablePosts(pr, mark, me, posts))
  {
    if posts != [] {
      var n := |posts| - 1;
      var before := ReportablePosts(pr, mark, me, posts[..n]);
      ReportedDistinct(pr, mark, me, posts[..n]);
      forall i | 0 <= i < |before| ensures before[i].id != posts[n].id {
        ReportedExactly(pr, mark, me, posts[..n], before[i]);
        var k :| 0 <= k < n && posts[..n][k] == before[i];
      }
    }
  }

  // --- check runs ------------------------------------------------------------

  predicate FailedRun(run: CheckRun) {
    run.completed && run.conclusion !in {"success", "neutral", "skipped"}
  }

  function FailedRuns(runs: seq<CheckRun>): seq<string> {
    if runs == [] then []
    else FailedRuns(runs[..|runs| - 1]) + if FailedRun(runs[|runs| - 1]) then [runs[|runs| - 1].name] else []
  }

  /** The state of a commit's runs. */
  ghost function StateOfRuns(runs: seq<CheckRun>): ChecksState {
    if exists r :: r in runs && FailedRun(r) then
      if forall r :: r in runs ==> r.completed then Failed else Failing
    else if runs != [] && forall r :: r in runs ==> r.completed then Passed
    else Pending
  }

  /** The rollup recorded for the current head commit; a new head starts over. */
  function PreviousState(pr: PullRequest): ChecksState {
    if pr.checksHead != pr.headSHA then Unset else pr.checksState
  }

  /** The state to record and whether to report it. */
  ghost function Transition(pr: PullRequest, now: ChecksState): (ChecksState, bool) {
    var previous := PreviousState(pr);
    if !TerminalState(now) then (if TerminalState(previous) then previous else now, false)
    else (now, now != previous && pr.checksHead != "")
  }

  method ChecksTransition(pr: PullRequest, runs: seq<CheckRun>) returns (event: Option<Activity>, state: ChecksState)
    ensures state == Transition(pr, StateOfRuns(runs)).0
    ensures event ==
            if Transition(pr, StateOfRuns(runs)).1 then Some(ChecksActivity(pr.headSHA, state, FailedRuns(runs)))
            else None
  {
    var failed: seq<string> := [];
    var complete := true;
    for n := 0 to |runs|
      invariant failed == FailedRuns(runs[..n])
      invariant complete <==> forall r :: r in runs[..n] ==> r.completed
      invariant |failed| > 0 <==> exists r :: r in runs[..n] && FailedRun(r)
    {
      var run := runs[n];
      assert runs[..n + 1][..n] == runs[..n];
      assert forall r :: r in runs[..n + 1] <==> r in runs[..n] || r == run;
      if !run.completed {
        complete := false;
        continue;
      }
      if run.conclusion == "success" || run.conclusion == "neutral" || run.conclusion == "skipped" {
      } else {
        failed := failed + [run.name];
      }
    }
    assert runs[..|runs|] == runs;
    var now := Pending;
    if |failed| > 0 && complete {
      now := Failed;
    } else if |failed| > 0 {
      now := Failing;
    } else if complete && |runs| > 0 {
      now := Passed;
    }
    var previous := pr.checksState;
    if pr.checksHead != pr.headSHA {
      previous := Unset;
    }
    if !TerminalState(now) {
      return None, if TerminalState(previous) then previous else now;
    }
    if now == previous || pr.checksHead == "" {
      return None, now;
    }
    return Some(ChecksActivity(pr.headSHA, now, failed)), now;
  }

  // --- one sync --------------------------------------------------------------

  /** What GitHub and the store answer during a sync; `None` is an API error. */
  datatype Answers = Answers(reviews: Option<seq<Post>>, comments: Option<seq<Post>>, runs: Option<seq<CheckRun>>,
                             stored: bool)

  function Tagged(posts: seq<Post>, comment: bool): seq<Activity> {
    seq(|posts|, i requires 0 <= i < |posts| => if comment then CommentActivity(posts[i]) else ReviewActivity(posts[i]))
  }

  /** The columns an activity sync may change, taken from `from`. */
  function WithActivityOf(pr: PullRequest, from: PullRequest): PullRequest {
    from.(title := pr.title, headSHA := pr.headSHA)
  }

  predicate SameActivity(a: PullRequest, b: PullRequest) {
    WithActivityOf(a, b) == a
  }

  /** The copy after looking at the posts. */
  function AfterPosts(pr: PullRequest, reviews: seq<Post>, comments: seq<Post>): PullRequest {
    pr.(lastReview := HighestId(pr.lastReview, reviews), lastComment := HighestId(pr.lastComment, comments),
        baselined := true)
  }

  ghost function AfterChecks(pr: PullRequest, answers: Answers): PullRequest {
    if pr.headSHA == "" || answers.runs.None? then pr
    else pr.(checksState := Transition(pr, StateOfRuns(answers.runs.value)).0, checksHead := pr.headSHA)
  }

  ghost function ChecksEvents(pr: PullRequest, answers: Answers): seq<Activity> {
    if pr.headSHA == "" || answers.runs.None? then []
    else
      var t := Transition(pr, StateOfRuns(answers.runs.value));
      if t.1 then [ChecksActivity(pr.headSHA, t.0, FailedRuns(answers.runs.value))] else []
  }

  predicate ApiOk(pr: PullRequest, answers: Answers) {
    answers.reviews.Some? && answers.comments.Some? && (pr.headSHA == "" || answers.runs.Some?)
  }

  /** The copy a sync persists. */
  ghost function Updated(pr: PullRequest, answers: Answers): PullRequest
    requires ApiOk(pr, answers)
  {
    AfterChecks(AfterPosts(pr, answers.reviews.value, answers.comments.value), answers)
  }

  /** What a successful sync reports: reviews as listed, comments in reading
      order, then the check rollup. */
  ghost function Report(pr: PullRequest, me: string, answers: Answers): seq<Activity>
    requires ApiOk(pr, answers)
  {
    PostEvents(pr, me, answers.reviews.value, answers.comments.value) + ChecksEvents(pr, answers)
  }

  function PostEvents(pr: PullRequest, me: string, reviews: seq<Post>, comments: seq<Post>): seq<Activity> {
    Tagged(ReportablePosts(pr, pr.lastReview, me, reviews), false) +
    Tagged(Reversed(ReportablePosts(pr, pr.lastComment, me, comments)), true)
  }

  /** A sync succeeds when every call it needs succeeds; the store is written
      only when something changed. */
  ghost predicate Succeeds(pr: PullRequest, answers: Answers) {
    ApiOk(pr, answers) && (answers.stored || Updated(pr, answers) == pr)
  }

  class PRStore {
    var row: PullRequest

    constructor (row: PullRequest)
      ensures this.row == row
    {
      this.row := row;
    }

    /** The pull request sync: every column but the activity columns. */
    method Update(pr: PullRequest, ok: bool)
      modifies this
      ensures row == if ok then WithActivityOf(pr, old(row)) else old(row)
    {
      if ok {
        row := row.(title := pr.title, headSHA := pr.headSHA);
      }
    }

    /** Writes the activity columns and nothing else. */
    method UpdateActivity(pr: PullRequest, ok: bool)
      modifies this
      ensures row == if ok then WithActivityOf(old(row), pr) else old(row)
    {
      if ok {
        row := row.(baselined := pr.baselined, lastReview := pr.lastReview, lastComment := pr.lastComment,
                    checksHead := pr.checksHead, checksState := pr.checksState);
      }
    }

    /** Saves every column of a pull request found again by its number. */
    method Upsert(pr: PullRequest, ok: bool)
      modifies this
      ensures row == if ok then pr else old(row)
    {
      if ok {
        row := pr;
      }
    }

    /** The pull request sync with a payload that carries no activity columns:
        it updates the row it looked up, and upserts when the lookup failed. */
    method SyncPullRequest(payload: PullRequest, found: bool, ok: bool)
      modifies this
      ensures row == if !ok then old(row) else if found then WithActivityOf(payload, old(row)) else payload
    {
      if found {
        Update(payload, ok);
      } else {
        Upsert(payload, ok);
      }
    }
  }

  /** The reviews of one sync. */
  method SyncReviews(copy: PullRequest, me: string, reviews: seq<Post>)
    returns (pr: PullRequest, activity: seq<Activity>, updated: bool)
    ensures pr == copy.(lastReview := HighestId(copy.lastReview, reviews)) && (updated <==> pr != copy)
    ensures activity == Tagged(ReportablePosts(copy, copy.lastReview, me, reviews), false)
  {
    pr, activity, updated := copy, [], false;
    var news, mark := NewPosts(pr, pr.lastReview, me, reviews);
    NothingNewNothingReported(pr, pr.lastReview, me, reviews);
    if mark > pr.lastReview {
      activity, pr, updated := Tagged(news, false), pr.(lastReview := mark), true;
    }
  }

  /** The comments of one sync. */
  method SyncComments(copy: PullRequest, me: string, comments: seq<Post>)
    returns (pr: PullRequest, activity: seq<Activity>, updated: bool)
    ensures pr == copy.(lastComment := HighestId(copy.lastComment, comments)) && (updated <==> pr != copy)
    ensures activity == Tagged(Reversed(ReportablePosts(copy, copy.lastComment, me, comments)), true)
  {
    pr, activity, updated := copy, [], false;
    var news, mark := NewPosts(pr, pr.lastComment, me, comments);
    NothingNewNothingReported(pr, pr.lastComment, me, comments);
    if mark > pr.lastComment {
      activity, pr, updated := Tagged(Reversed(news), true), pr.(lastComment := mark), true;
    }
  }

  /** The reviews and comments of one sync. */
  method SyncPosts(copy: PullRequest, me: string, answers: Answers)
    returns (ok: bool, pr: PullRequest, activity: seq<Activity>, updated: bool)
    ensures ok <==> answers.reviews.Some? && answers.comments.Some?
    ensures ok ==> pr == AfterPosts(copy, answers.reviews.value, answers.comments.value)
    ensures ok ==> activity == PostEvents(copy, me, answers.reviews.value, answers.comments.value)
    ensures ok ==> (updated <==> pr != copy)
  {
    ok, pr, activity, updated := false, copy, [], false;
    if answers.reviews.None? {
      return;
    }
    pr, activity, updated := SyncReviews(copy, me, answers.reviews.value);
    if answers.comments.None? {
      return;
    }
    SameReportable(copy, pr, pr.lastComment, me, answers.comments.value);
    var more, changed;
    pr, more, changed := SyncComments(pr, me, answers.comments.value);
    activity, updated := activity + more, updated || changed || !pr.baselined;
    pr := pr.(baselined := true);
    ok := true;
  }

  /** One activity sync over a copy loaded earlier. */
  method SyncPRActivity(store: PRStore, copy: PullRequest, me: string, answers: Answers)
    returns (result: Option<seq<Activity>>)
    modifies store
    ensures result.Some? <==> Succeeds(copy, answers)
    ensures result.Some? ==> result.value == Report(copy, me, answers)
    ensures store.row ==
            if result.Some? && Updated(copy, answers) != copy then
              WithActivityOf(old(store.row), Updated(copy, answers))
            else old(store.row)
  {
    var ok, pr, activity, updated := SyncPosts(copy, me, answers);
    if !ok {
      return None;
    }
    if pr.headSHA != "" {
      if answers.runs.None? {
        return None;
      }
      ghost var checked := pr;
      var event, state := ChecksTransition(pr, answers.runs.value);
      ChecksAreTheCopys(copy, checked, answers);
      if state != pr.checksState || pr.checksHead != pr.headSHA {
        if event.Some? {
          activity := activity + [event.value];
        }
        pr := pr.(checksState := state, checksHead := pr.headSHA);
        updated := true;
      }
    }
    if updated {
      store.UpdateActivity(pr, answers.stored);
      if !answers.stored {
        return None;
      }
    }
    return Some(activity);
  }

  lemma ChecksAreTheCopys(copy: PullRequest, pr: PullRequest, answers: Answers)
    requires answers.reviews.Some? && answers.comments.Some?
    requires pr == AfterPosts(copy, answers.reviews.value, answers.comments.value)
    ensures ChecksEvents(pr, answers) == ChecksEvents(copy, answers)
  {}

  lemma {:induction false} SameReportable(a: PullRequest, b: PullRequest, mark: int, me: string, posts: seq<Post>)
    requires a.baselined == b.baselined
    ensures ReportablePosts(a, mark, me, posts) == ReportablePosts(b, mark, me, posts)
  {
    if posts != [] {
      SameReportable(a, b, mark, me, posts[..|posts| - 1]);
    }
  }

  lemma {:induction false} NothingNewNothingReported(pr: PullRequest, mark: int, me: string, posts: seq<Post>)
    ensures HighestId(mark, posts) == mark ==> ReportablePosts(pr, mark, me, posts) == []
  {
    var reported := ReportablePosts(pr, mark, me, posts);
    if reported != [] {
      ReportedExactly(pr, mark, me, posts, reported[0]);
    }
  }
}
