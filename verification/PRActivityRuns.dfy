/** Runs of activity syncs, with API and store failures, interleaved with pull
    request syncs over the same row. */
module PRActivityRuns {
  import opened BrowserTypes
  import opened PRActivity

  /** What a run has told the sessions, and when a new head commit was
      recorded. */
  datatype Entry = Told(activity: Activity) | HeadRecorded(head: string)

  datatype World = World(row: PullRequest, copy: Option<PullRequest>, log: seq<Entry>)

  /** `SyncPR` is a pull request sync: `found` when its first lookup found the
      row. `Load` reads the copy an activity sync will work on. */
  datatype Step = SyncPR(payload: PullRequest, found: bool, ok: bool) | Load | SyncActivity(answers: Answers)

  function TellAll(activities: seq<Activity>): seq<Entry> {
    seq(|activities|, i requires 0 <= i < |activities| => Told(activities[i]))
  }

  ghost function Entries(pr: PullRequest, me: string, answers: Answers): seq<Entry>
    requires ApiOk(pr, answers)
  {
    TellAll(PostEvents(pr, me, answers.reviews.value, answers.comments.value)) +
    (if Updated(pr, answers).checksHead != pr.checksHead then [HeadRecorded(pr.headSHA)] else []) +
    TellAll(ChecksEvents(pr, answers))
  }

  ghost function Next(w: World, step: Step, me: string): World {
    match step
    case SyncPR(payload, found, ok) =>
      w.(row := if !ok then w.row else if found then WithActivityOf(payload, w.row) else payload)
    case Load => w.(copy := Some(w.row))
    case SyncActivity(answers) =>
      if w.copy.None? then w
      else if !Succeeds(w.copy.value, answers) then w.(copy := None)
      else World(WithActivityOf(w.row, Updated(w.copy.value, answers)), None,
                 w.log + Entries(w.copy.value, me, answers))
  }

  ghost function Run(start: PullRequest, steps: seq<Step>, me: string): World {
    if steps == [] then World(start, None, []) else Next(Run(start, steps[..|steps| - 1], me), steps[|steps| - 1], me)
  }

  /** An activity sync on the store takes the run's step, also when it fails or
      when nothing changed and the write was skipped. */
  method SyncOnce(store: PRStore, ghost w: World, copy: PullRequest, me: string, answers: Answers)
    returns (result: Option<seq<Activity>>)
    requires w.copy == Some(copy) && w.row == store.row && SameActivity(copy, w.row)
    modifies store
    ensures store.row == Next(w, SyncActivity(answers), me).row
    ensures result.Some? <==> Succeeds(copy, answers)
    ensures result.Some? ==> result.value == Report(copy, me, answers)
  {
    result := SyncPRActivity(store, copy, me, answers);
  }

  /** Ids distinct within each response; a pull request sync finds the row it
      updates. */
  predicate Regular(step: Step) {
    match step
    case SyncPR(payload, found, ok) => found || !ok
    case Load => true
    case SyncActivity(answers) =>
      (answers.reviews.Some? ==> DistinctPosts(answers.reviews.value)) &&
      (answers.comments.Some? ==> DistinctPosts(answers.comments.value))
  }

  // --- what a log shows ------------------------------------------------------

  function ReviewId(e: Entry): set<int> {
    if e.Told? && e.activity.ReviewActivity? then {e.activity.review.id} else {}
  }

  function CommentId(e: Entry): set<int> {
    if e.Told? && e.activity.CommentActivity? then {e.activity.comment.id} else {}
  }

  /** Ids of the reviews told. */
  function ReviewIds(log: seq<Entry>): set<int> {
    if log == [] then {} else ReviewIds(log[..|log| - 1]) + ReviewId(log[|log| - 1])
  }

  function CommentIds(log: seq<Entry>): set<int> {
    if log == [] then {} else CommentIds(log[..|log| - 1]) + CommentId(log[|log| - 1])
  }

  /** Rollup reported last for the head commit on record. */
  function Rollup(log: seq<Entry>): Option<ChecksState> {
    if log == [] then None
    else match log[|log| - 1]
      case HeadRecorded(_) => None
      case Told(ChecksActivity(_, state, _)) => Some(state)
      case Told(_) => Rollup(log[..|log| - 1])
  }

  /** No review or comment is told twice, and no rollup repeats. */
  ghost predicate NewsOnly(past: seq<Entry>, e: Entry) {
    match e
    case HeadRecorded(_) => true
    case Told(ReviewActivity(p)) => p.id !in ReviewIds(past)
    case Told(CommentActivity(p)) => p.id !in CommentIds(past)
    case Told(ChecksActivity(_, state, _)) => Rollup(past) != Some(state)
  }

  ghost predicate AllNews(log: seq<Entry>) {
    log != [] ==> AllNews(log[..|log| - 1]) && NewsOnly(log[..|log| - 1], log[|log| - 1])
  }

  lemma Append(log: seq<Entry>, e: Entry)
    ensures ReviewIds(log + [e]) == ReviewIds(log) + ReviewId(e)
    ensures CommentIds(log + [e]) == CommentIds(log) + CommentId(e)
    ensures AllNews(log + [e]) <==> AllNews(log) && NewsOnly(log, e)
    ensures e.HeadRecorded? ==> Rollup(log + [e]) == None
    ensures e.Told? && e.activity.ChecksActivity? ==> Rollup(log + [e]) == Some(e.activity.state)
    ensures e.Told? && !e.activity.ChecksActivity? ==> Rollup(log + [e]) == Rollup(log)
  {
    assert (log + [e])[..|log|] == log;
  }

  lemma {:induction false} ReviewIdAt(log: seq<Entry>, p: nat)
    requires p < |log|
    ensures ReviewId(log[p]) <= ReviewIds(log) && CommentId(log[p]) <= CommentIds(log)
  {
    if p < |log| - 1 {
      ReviewIdAt(log[..|log| - 1], p);
    }
  }

  function IdsOf(posts: seq<Post>): set<int> {
    if posts == [] then {} else IdsOf(posts[..|posts| - 1]) + {posts[|posts| - 1].id}
  }

  lemma {:induction false} IdIsSome(posts: seq<Post>, id: int)
    requires id in IdsOf(posts)
    ensures exists i :: 0 <= i < |posts| && posts[i].id == id
  {
    var n := |posts| - 1;
    if id != posts[n].id {
      IdIsSome(posts[..n], id);
      var i :| 0 <= i < n && posts[..n][i].id == id;
      assert posts[i].id == id;
    }
  }

  // --- the invariant ---------------------------------------------------------

  ghost predicate Invariant(w: World) {
    && AllNews(w.log)
    && (forall id :: id in ReviewIds(w.log) ==> id <= w.row.lastReview)
    && (forall id :: id in CommentIds(w.log) ==> id <= w.row.lastComment)
    && RollupFits(w.log, w.row)
    && (w.copy.Some? ==> SameActivity(w.copy.value, w.row))
  }

  /** Posts that may be told: above the mark, each once. */
  ghost predicate Tellable(posts: seq<Post>, mark: int, high: int) {
    mark <= high && DistinctPosts(posts) && forall i :: 0 <= i < |posts| ==> mark < posts[i].id <= high
  }

  lemma TellableShorter(posts: seq<Post>, mark: int, high: int)
    requires Tellable(posts, mark, high) && posts != []
    ensures Tellable(posts[..|posts| - 1], mark, high) && posts[|posts| - 1].id !in IdsOf(posts[..|posts| - 1])
  {
    var n := |posts| - 1;
    if posts[n].id in IdsOf(posts[..n]) {
      IdIsSome(posts[..n], posts[n].id);
    }
  }

  lemma TellLast(log: seq<Entry>, posts: seq<Post>, comment: bool)
    requires posts != []
    ensures log + TellAll(Tagged(posts, comment)) ==
            log + TellAll(Tagged(posts[..|posts| - 1], comment)) +
            [Told(if comment then CommentActivity(posts[|posts| - 1]) else ReviewActivity(posts[|posts| - 1]))]
  {}

  lemma TellBoth(log: seq<Entry>, a: seq<Activity>, b: seq<Activity>)
    ensures log + TellAll(a + b) == log + TellAll(a) + TellAll(b)
  {}

  lemma TellNone(log: seq<Entry>, comment: bool)
    ensures log + TellAll(Tagged([], comment)) == log
  {}

  lemma TellOneReview(log: seq<Entry>, p: Post)
    requires AllNews(log) && p.id !in ReviewIds(log)
    ensures var l := log + [Told(ReviewActivity(p))];
            && AllNews(l) && Rollup(l) == Rollup(log) && CommentIds(l) == CommentIds(log)
            && ReviewIds(l) == ReviewIds(log) + {p.id}
  {
    Append(log, Told(ReviewActivity(p)));
  }

  lemma TellOneComment(log: seq<Entry>, p: Post)
    requires AllNews(log) && p.id !in CommentIds(log)
    ensures var l := log + [Told(CommentActivity(p))];
            && AllNews(l) && Rollup(l) == Rollup(log) && ReviewIds(l) == ReviewIds(log)
            && CommentIds(l) == CommentIds(log) + {p.id}
  {
    Append(log, Told(CommentActivity(p)));
  }

  lemma {:induction false} TellReviews(log: seq<Entry>, posts: seq<Post>, mark: int, high: int)
    requires AllNews(log) && Tellable(posts, mark, high) && forall id :: id in ReviewIds(log) ==> id <= mark
    ensures var l := log + TellAll(Tagged(posts, false));
            && AllNews(l) && Rollup(l) == Rollup(log) && CommentIds(l) == CommentIds(log)
            && ReviewIds(l) == ReviewIds(log) + IdsOf(posts)
  {
    if posts == [] {
      TellNone(log, false);
    } else {
      var n := |posts| - 1;
      TellableShorter(posts, mark, high);
      TellReviews(log, posts[..n], mark, high);
      TellLast(log, posts, false);
      TellOneReview(log + TellAll(Tagged(posts[..n], false)), posts[n]);
    }
  }

  lemma {:induction false} TellComments(log: seq<Entry>, posts: seq<Post>, mark: int, high: int)
    requires AllNews(log) && Tellable(posts, mark, high) && forall id :: id in CommentIds(log) ==> id <= mark
    ensures var l := log + TellAll(Tagged(posts, true));
            && AllNews(l) && Rollup(l) == Rollup(log) && ReviewIds(l) == ReviewIds(log)
            && CommentIds(l) == CommentIds(log) + IdsOf(posts)
  {
    if posts == [] {
      TellNone(log, true);
    } else {
      var n := |posts| - 1;
      TellableShorter(posts, mark, high);
      TellComments(log, posts[..n], mark, high);
      TellLast(log, posts, true);
      TellOneComment(log + TellAll(Tagged(posts[..n], true)), posts[n]);
    }
  }

  lemma {:induction false} IdsBounded(posts: seq<Post>, mark: int, high: int)
    requires Tellable(posts, mark, high)
    ensures forall id :: id in IdsOf(posts) ==> id <= high
  {
    if posts != [] {
      TellableShorter(posts, mark, high);
      IdsBounded(posts[..|posts| - 1], mark, high);
    }
  }

  lemma ReportableIsTellable(pr: PullRequest, mark: int, me: string, posts: seq<Post>)
    requires DistinctPosts(posts)
    ensures var r := ReportablePosts(pr, mark, me, posts);
            Tellable(r, mark, HighestId(mark, posts)) && Tellable(Reversed(r), mark, HighestId(mark, posts))
  {
    var r := ReportablePosts(pr, mark, me, posts);
    ReportedDistinct(pr, mark, me, posts);
    forall i | 0 <= i < |r| ensures mark < r[i].id <= HighestId(mark, posts) {
      ReportedExactly(pr, mark, me, posts, r[i]);
    }
  }

  lemma ReviewsKeepInvariant(log: seq<Entry>, pr: PullRequest, me: string, reviews: seq<Post>)
    requires DistinctPosts(reviews) && AllNews(log) && forall id :: id in ReviewIds(log) ==> id <= pr.lastReview
    ensures var l := log + TellAll(Tagged(ReportablePosts(pr, pr.lastReview, me, reviews), false));
            && AllNews(l) && Rollup(l) == Rollup(log) && CommentIds(l) == CommentIds(log)
            && (forall id :: id in ReviewIds(l) ==> id <= HighestId(pr.lastReview, reviews))
  {
    var r := ReportablePosts(pr, pr.lastReview, me, reviews);
    ReportableIsTellable(pr, pr.lastReview, me, reviews);
    TellReviews(log, r, pr.lastReview, HighestId(pr.lastReview, reviews));
    IdsBounded(r, pr.lastReview, HighestId(pr.lastReview, reviews));
  }

  lemma CommentsKeepInvariant(log: seq<Entry>, pr: PullRequest, me: string, comments: seq<Post>)
    requires DistinctPosts(comments) && AllNews(log) && forall id :: id in CommentIds(log) ==> id <= pr.lastComment
    ensures var l := log + TellAll(Tagged(Reversed(ReportablePosts(pr, pr.lastComment, me, comments)), true));
            && AllNews(l) && Rollup(l) == Rollup(log) && ReviewIds(l) == ReviewIds(log)
            && (forall id :: id in CommentIds(l) ==> id <= HighestId(pr.lastComment, comments))
  {
    var r := Reversed(ReportablePosts(pr, pr.lastComment, me, comments));
    ReportableIsTellable(pr, pr.lastComment, me, comments);
    TellComments(log, r, pr.lastComment, HighestId(pr.lastComment, comments));
    IdsBounded(r, pr.lastComment, HighestId(pr.lastComment, comments));
  }

  lemma PostsKeepInvariant(log: seq<Entry>, pr: PullRequest, me: string, reviews: seq<Post>, comments: seq<Post>)
    requires DistinctPosts(reviews) && DistinctPosts(comments) && AllNews(log)
    requires forall id :: id in ReviewIds(log) ==> id <= pr.lastReview
    requires forall id :: id in CommentIds(log) ==> id <= pr.lastComment
    ensures var l := log + TellAll(PostEvents(pr, me, reviews, comments));
            && AllNews(l) && Rollup(l) == Rollup(log)
            && (forall id :: id in ReviewIds(l) ==> id <= HighestId(pr.lastReview, reviews))
            && (forall id :: id in CommentIds(l) ==> id <= HighestId(pr.lastComment, comments))
  {
    var told := TellAll(Tagged(ReportablePosts(pr, pr.lastReview, me, reviews), false));
    ReviewsKeepInvariant(log, pr, me, reviews);
    CommentsKeepInvariant(log + told, pr, me, comments);
    TellBoth(log, Tagged(ReportablePosts(pr, pr.lastReview, me, reviews), false),
             Tagged(Reversed(ReportablePosts(pr, pr.lastComment, me, comments)), true));
  }

  /** The rollup on record fits the row. */
  ghost predicate RollupFits(log: seq<Entry>, pr: PullRequest) {
    Rollup(log).Some? ==> Rollup(log).value == pr.checksState && TerminalState(pr.checksState)
  }

  lemma HeadKeepsRollup(log: seq<Entry>, pr: PullRequest) returns (mid: seq<Entry>)
    requires AllNews(log) && RollupFits(log, pr)
    ensures mid == log + if pr.headSHA != pr.checksHead then [HeadRecorded(pr.headSHA)] else []
    ensures AllNews(mid) && ReviewIds(mid) == ReviewIds(log) && CommentIds(mid) == CommentIds(log)
    ensures Rollup(mid).Some? ==> Rollup(mid).value == PreviousState(pr) && TerminalState(PreviousState(pr))
  {
    mid := log + if pr.headSHA != pr.checksHead then [HeadRecorded(pr.headSHA)] else [];
    Append(log, HeadRecorded(pr.headSHA));
    if pr.headSHA == pr.checksHead {
      assert mid == log;
    }
  }

  lemma ChecksKeepInvariant(log: seq<Entry>, pr: PullRequest, answers: Answers)
    requires AllNews(log) && ApiOk(pr, answers) && RollupFits(log, pr)
    ensures var after := Updated(pr, answers);
            var l := log + (if after.checksHead != pr.checksHead then [HeadRecorded(pr.headSHA)] else []) +
                     TellAll(ChecksEvents(pr, answers));
            && AllNews(l) && ReviewIds(l) == ReviewIds(log) && CommentIds(l) == CommentIds(log) && RollupFits(l, after)
  {
    if pr.headSHA == "" {
      TellNothing(log);
    } else {
      var mid := HeadKeepsRollup(log, pr);
      TellRollup(mid, pr, answers);
    }
  }

  lemma TellNothing(log: seq<Entry>)
    ensures log + [] + TellAll([]) == log
  {}

  lemma TellOne(log: seq<Entry>, a: Activity)
    ensures log + TellAll([a]) == log + [Told(a)]
  {}

  lemma TellRollup(mid: seq<Entry>, pr: PullRequest, answers: Answers)
    requires AllNews(mid) && ApiOk(pr, answers) && pr.headSHA != ""
    requires Rollup(mid).Some? ==> Rollup(mid).value == PreviousState(pr) && TerminalState(PreviousState(pr))
    ensures var l := mid + TellAll(ChecksEvents(pr, answers));
            && AllNews(l) && ReviewIds(l) == ReviewIds(mid) && CommentIds(l) == CommentIds(mid)
            && RollupFits(l, Updated(pr, answers))
  {
    var t := Transition(pr, StateOfRuns(answers.runs.value));
    PostsLeaveChecks(pr, answers);
    if t.1 {
      var a := ChecksActivity(pr.headSHA, t.0, FailedRuns(answers.runs.value));
      assert ChecksEvents(pr, answers) == [a];
      TellOne(mid, a);
      OneRollup(mid, a);
    } else {
      assert ChecksEvents(pr, answers) == [];
      TellNoEvent(mid);
    }
  }

  lemma PostsLeaveChecks(pr: PullRequest, answers: Answers)
    requires ApiOk(pr, answers) && pr.headSHA != ""
    ensures Updated(pr, answers).checksState == Transition(pr, StateOfRuns(answers.runs.value)).0
  {}

  lemma OneRollup(log: seq<Entry>, a: Activity)
    requires AllNews(log) && a.ChecksActivity? && Rollup(log) != Some(a.state)
    ensures var l := log + [Told(a)];
            && AllNews(l) && Rollup(l) == Some(a.state)
            && ReviewIds(l) == ReviewIds(log) && CommentIds(l) == CommentIds(log)
  {
    Append(log, Told(a));
  }

  lemma TellNoEvent(log: seq<Entry>)
    ensures log + TellAll([]) == log
  {}

  lemma SyncKeepsInvariant(w: World, answers: Answers, me: string)
    requires Invariant(w) && w.copy.Some? && Regular(SyncActivity(answers)) && Succeeds(w.copy.value, answers)
    ensures Invariant(Next(w, SyncActivity(answers), me))
  {
    var pr := w.copy.value;
    var reviews, comments := answers.reviews.value, answers.comments.value;
    PostsKeepInvariant(w.log, pr, me, reviews, comments);
    var mid := w.log + TellAll(PostEvents(pr, me, reviews, comments));
    ChecksKeepInvariant(mid, pr, answers);
    Regroup(w.log, TellAll(PostEvents(pr, me, reviews, comments)),
            if Updated(pr, answers).checksHead != pr.checksHead then [HeadRecorded(pr.headSHA)] else [],
            TellAll(ChecksEvents(pr, answers)));
  }

  lemma Regroup(a: seq<Entry>, b: seq<Entry>, c: seq<Entry>, d: seq<Entry>)
    ensures a + (b + c + d) == a + b + c + d
  {}

  lemma StepKeepsInvariant(w: World, step: Step, me: string)
    requires Invariant(w) && Regular(step)
    ensures Invariant(Next(w, step, me))
  {
    if step.SyncActivity? && w.copy.Some? && Succeeds(w.copy.value, step.answers) {
      SyncKeepsInvariant(w, step.answers, me);
    }
  }

  lemma {:induction false} RunKeepsInvariant(start: PullRequest, steps: seq<Step>, me: string)
    requires forall i :: 0 <= i < |steps| ==> Regular(steps[i])
    ensures Invariant(Run(start, steps, me))
  {
    if steps != [] {
      RunKeepsInvariant(start, steps[..|steps| - 1], me);
      StepKeepsInvariant(Run(start, steps[..|steps| - 1], me), steps[|steps| - 1], me);
    }
  }

  // --- the guarantees --------------------------------------------------------

  /** Over any run the watermarks never decrease and a baseline is never
      lost. */
  lemma {:induction false} WatermarksNeverDecrease(start: PullRequest, steps: seq<Step>, me: string, n: nat)
    requires n <= |steps| && forall i :: 0 <= i < |steps| ==> Regular(steps[i])
    ensures var earlier, later := Run(start, steps[..n], me).row, Run(start, steps, me).row;
            && earlier.lastReview <= later.lastReview && earlier.lastComment <= later.lastComment
            && (earlier.baselined ==> later.baselined)
    decreases |steps|
  {
    if n < |steps| {
      var before := steps[..|steps| - 1];
      assert before[..n] == steps[..n];
      WatermarksNeverDecrease(start, before, me, n);
      RunKeepsInvariant(start, before, me);
    } else {
      assert steps[..n] == steps;
    }
  }

  /** Between two entries no rollup is told and no new head is recorded. */
  ghost predicate SameHead(log: seq<Entry>, p: nat, q: nat) {
    q <= |log| && forall r :: p < r < q ==> log[r].Told? && !log[r].activity.ChecksActivity?
  }

  /** Over any run each review and each comment is told at most once, and two
      successive rollups for the head commit on record differ. */
  lemma {:induction false} ToldAtMostOnce(log: seq<Entry>, p: nat, q: nat)
    requires AllNews(log) && p < q < |log| && log[p].Told? && log[q].Told?
    ensures log[p].activity.ReviewActivity? && log[q].activity.ReviewActivity? ==>
              log[p].activity.review.id != log[q].activity.review.id
    ensures log[p].activity.CommentActivity? && log[q].activity.CommentActivity? ==>
              log[p].activity.comment.id != log[q].activity.comment.id
    ensures log[p].activity.ChecksActivity? && log[q].activity.ChecksActivity? && SameHead(log, p, q) ==>
              log[p].activity.state != log[q].activity.state
  {
    var n := |log| - 1;
    if q < n {
      ToldAtMostOnce(log[..n], p, q);
      assert SameHead(log, p, q) ==> SameHead(log[..n], p, q);
    } else {
      assert log[..n][p] == log[p];
      ReviewIdAt(log[..n], p);
      if log[p].activity.ChecksActivity? && SameHead(log, p, q) {
        RollupStays(log[..n], p);
      }
    }
  }

  lemma {:induction false} RollupStays(log: seq<Entry>, p: nat)
    requires p < |log| && log[p].Told? && log[p].activity.ChecksActivity?
    requires forall r :: p < r < |log| ==> log[r].Told? && !log[r].activity.ChecksActivity?
    ensures Rollup(log) == Some(log[p].activity.state)
  {
    if p < |log| - 1 {
      RollupStays(log[..|log| - 1], p);
    }
  }

  lemma RunToldAtMostOnce(start: PullRequest, steps: seq<Step>, me: string)
    requires forall i :: 0 <= i < |steps| ==> Regular(steps[i])
    ensures AllNews(Run(start, steps, me).log)
  {
    RunKeepsInvariant(start, steps, me);
  }

  /** The first successful sync that sees a post above a baselined watermark,
      by an author who is not ignored, tells it; no run told it before. */
  lemma FirstSightIsTold(start: PullRequest, steps: seq<Step>, me: string, answers: Answers, p: Post)
    requires forall i :: 0 <= i < |steps| ==> Regular(steps[i])
    requires Regular(SyncActivity(answers))
    requires var w := Run(start, steps, me);
             w.copy.Some? && w.row.baselined && Succeeds(w.copy.value, answers) && !IgnoredAuthor(me, p.author)
    ensures var w := Run(start, steps, me);
            p in answers.reviews.value && p.id > w.row.lastReview ==>
              ReviewActivity(p) in Report(w.copy.value, me, answers) && p.id !in ReviewIds(w.log)
    ensures var w := Run(start, steps, me);
            p in answers.comments.value && p.id > w.row.lastComment ==>
              CommentActivity(p) in Report(w.copy.value, me, answers) && p.id !in CommentIds(w.log)
  {
    var w := Run(start, steps, me);
    RunKeepsInvariant(start, steps, me);
    var pr := w.copy.value;
    if p in answers.reviews.value && p.id > w.row.lastReview {
      ReportedExactly(pr, pr.lastReview, me, answers.reviews.value, p);
      TaggedHas(ReportablePosts(pr, pr.lastReview, me, answers.reviews.value), false, p);
    }
    if p in answers.comments.value && p.id > w.row.lastComment {
      ReportedExactly(pr, pr.lastComment, me, answers.comments.value, p);
      TaggedHas(Reversed(ReportablePosts(pr, pr.lastComment, me, answers.comments.value)), true, p);
    }
  }

  lemma TaggedHas(posts: seq<Post>, comment: bool, p: Post)
    requires p in posts
    ensures (if comment then CommentActivity(p) else ReviewActivity(p)) in Tagged(posts, comment)
  {
    var i :| 0 <= i < |posts| && posts[i] == p;
    assert Tagged(posts, comment)[i] == if comment then CommentActivity(p) else ReviewActivity(p);
  }

  /** A pull request sync and an activity sync write disjoint columns: their
      order does not matter. */
  lemma SyncsCommute(w: World, payload: PullRequest, ok: bool, answers: Answers, me: string)
    ensures Next(Next(w, SyncPR(payload, true, ok), me), SyncActivity(answers), me) ==
            Next(Next(w, SyncActivity(answers), me), SyncPR(payload, true, ok), me)
  {}

  /** A pull request sync keeps the activity columns if and only if it found
      the row, or was not stored, or its payload happens to carry them. */
  lemma PullRequestSyncKeepsActivity(w: World, payload: PullRequest, found: bool, ok: bool, me: string)
    ensures SameActivity(Next(w, SyncPR(payload, found, ok), me).row, w.row) <==>
            found || !ok || SameActivity(payload, w.row)
  {}

  lemma RunNext(start: PullRequest, steps: seq<Step>, step: Step, me: string)
    ensures Run(start, steps + [step], me) == Next(Run(start, steps, me), step, me)
  {
    assert (steps + [step])[..|steps|] == steps;
  }

  /** When the first lookup fails on an existing row, the upsert saves blank
      activity columns: the watermark falls back and a review already told is
      told again. */
  lemma LostLookupRepeatsReview(review: Post) returns (start: PullRequest, steps: seq<Step>)
    requires review.id > 0 && !IgnoredAuthor("me", review.author)
    ensures forall i :: 0 <= i < |steps| ==> Regular(steps[i]) || (steps[i].SyncPR? && !steps[i].found)
    ensures Run(start, steps, "me").log == [Told(ReviewActivity(review)), Told(ReviewActivity(review))]
  {
    var blank := PullRequest("t", "", false, 0, 0, "", Unset);
    start := blank.(baselined := true);
    var seen, quiet := Answers(Some([review]), Some([]), None, true), Answers(Some([]), Some([]), None, true);
    OneReview(start, review);
    OneReview(blank, review);
    OneReview(blank.(baselined := true), review);
    steps := [];
    RunNext(start, steps, Load, "me");
    steps := steps + [Load];
    RunNext(start, steps, SyncActivity(seen), "me");
    steps := steps + [SyncActivity(seen)];
    assert Run(start, steps, "me") == World(start.(lastReview := review.id), None, [Told(ReviewActivity(review))]);
    RunNext(start, steps, SyncPR(blank, false, true), "me");
    steps := steps + [SyncPR(blank, false, true)];
    RunNext(start, steps, Load, "me");
    steps := steps + [Load];
    RunNext(start, steps, SyncActivity(quiet), "me");
    steps := steps + [SyncActivity(quiet)];
    assert Run(start, steps, "me") == World(blank.(baselined := true), None, [Told(ReviewActivity(review))]);
    RunNext(start, steps, Load, "me");
    steps := steps + [Load];
    RunNext(start, steps, SyncActivity(seen), "me");
    steps := steps + [SyncActivity(seen)];
  }

  /** A response with one review, or none, and what is told of it. */
  lemma OneReview(pr: PullRequest, review: Post)
    requires review.id > 0 && !IgnoredAuthor("me", review.author) && pr.headSHA == "" && pr.lastReview == 0
    requires pr.lastComment == 0
    ensures var seen, quiet := Answers(Some([review]), Some([]), None, true), Answers(Some([]), Some([]), None, true);
            && Succeeds(pr, seen) && Succeeds(pr, quiet)
            && Updated(pr, quiet) == pr.(baselined := true) && Entries(pr, "me", quiet) == []
            && Updated(pr, seen) == pr.(baselined := true, lastReview := review.id)
            && Entries(pr, "me", seen) == if pr.baselined then [Told(ReviewActivity(review))] else []
  {
    assert [review][..0] == [];
    assert ReportablePosts(pr, 0, "me", [review]) == if pr.baselined then [review] else [];
    assert ReportablePosts(pr, 0, "me", []) == [];
    assert HighestId(0, [review]) == review.id;
  }
}
