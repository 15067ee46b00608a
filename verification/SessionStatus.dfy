/** The status of a session: guarded updates of its row, the end of a setup
    with its background steps, and the protocol of remote sessions whose
    operations finish late. */
module SessionStatus {
  import opened BrowserTypes

  datatype Status = Pending | Creating | Active | Inactive | Broken | Completed | Archived | Deleted

  /** The statuses a remote poll may read and write. */
  const MIRRORED := {Active, Inactive, Broken, Completed}

  /** `toCreate`: what to create remotely is still on record. `remoteId`: the
      remote session is known. `attention` and `syncedAt`: what the last poll
      said and when. */
  datatype Row = Row(status: Status, error: string, toCreate: bool, remoteId: bool, attached: bool, attention: string,
                     syncedAt: Option<Time>)

  // --- guarded updates -----------------------------------------------------------

  function StatusWhere(row: Option<Row>, status: Status, error: string, from: set<Status>): Option<Row> {
    if row.Some? && row.value.status in from then Some(row.value.(status := status, error := error)) else row
  }

  function CreateFinished(row: Option<Row>, status: Status, error: string): Option<Row> {
    if row.Some? && row.value.status == Creating then
      Some(row.value.(status := status, error := error, toCreate := false))
    else row
  }

  function ErrorWhere(row: Option<Row>, error: string, among: set<Status>): Option<Row> {
    if row.Some? && row.value.status in among then Some(row.value.(error := error)) else row
  }

  function Appended(text: string, warning: string): string {
    if text == "" then warning else text + "; " + warning
  }

  function ErrorAppended(row: Option<Row>, warning: string, among: set<Status>): Option<Row> {
    if row.Some? && row.value.status in among then Some(row.value.(error := Appended(row.value.error, warning)))
    else row
  }

  function Synced(row: Option<Row>, attention: string, at: Time): Option<Row> {
    if row.Some? then Some(row.value.(attention := attention, syncedAt := Some(at))) else None
  }

  /** What a poll found: its attention in any case, its status only between
      mirrored ones. */
  function Mirrored(row: Option<Row>, status: Status, error: string, attention: string, at: Time): Option<Row> {
    var synced := Synced(row, attention, at);
    if status in MIRRORED then StatusWhere(synced, status, error, MIRRORED) else synced
  }

  function MarkedAttached(row: Option<Row>): Option<Row> {
    if row.Some? then Some(row.value.(attached := true)) else None
  }

  /** The row with the columns that only the remote side writes as stored. */
  function WithRemoteColumns(row: Row, stored: Row): Row {
    row.(remoteId := stored.remoteId, attention := stored.attention, syncedAt := stored.syncedAt)
  }

  class SessionStore {
    var row: Option<Row>

    constructor (row: Option<Row>)
      ensures this.row == row
    {
      this.row := row;
    }

    method UpdateStatusWhere(status: Status, error: string, from: set<Status>) returns (changed: bool)
      modifies this
      ensures row == StatusWhere(old(row), status, error, from)
      ensures changed <==> old(row).Some? && old(row).value.status in from
    {
      changed := row.Some? && row.value.status in from;
      if changed {
        row := Some(row.value.(status := status, error := error));
      }
    }

    method FinishRemoteCreate(status: Status, error: string) returns (changed: bool)
      modifies this
      ensures row == CreateFinished(old(row), status, error)
      ensures changed <==> old(row).Some? && old(row).value.status == Creating
    {
      changed := row.Some? && row.value.status == Creating;
      if changed {
        row := Some(row.value.(status := status, error := error, toCreate := false));
      }
    }

    method SetStatusError(error: string, among: set<Status>)
      modifies this
      ensures row == ErrorWhere(old(row), error, among)
    {
      if row.Some? && row.value.status in among {
        row := Some(row.value.(error := error));
      }
    }

    method AppendStatusError(warning: string, among: set<Status>)
      modifies this
      ensures row == ErrorAppended(old(row), warning, among)
    {
      if row.Some? && row.value.status in among {
        row := Some(row.value.(error := if row.value.error == "" then warning else row.value.error + "; " + warning));
      }
    }

    method MarkAttached()
      modifies this
      ensures row == MarkedAttached(old(row))
    {
      if row.Some? {
        row := Some(row.value.(attached := true));
      }
    }

    method ApplyRemoteState(status: Status, error: string, attention: string, at: Time)
      modifies this
      ensures row == Mirrored(old(row), status, error, attention, at)
    {
      if row.Some? {
        row := Some(row.value.(attention := attention, syncedAt := Some(at)));
      }
      if status !in MIRRORED {
        return;
      }
      var _ := UpdateStatusWhere(status, error, MIRRORED);
    }

    /** Saves a loaded session, which must still exist, but for the columns that
        only the remote side writes. */
    method Update(saved: Row) returns (ok: bool)
      modifies this
      ensures ok <==> old(row).Some?
      ensures ok ==> row == Some(WithRemoteColumns(saved, old(row).value))
      ensures !ok ==> row == old(row)
    {
      ok := row.Some?;
      if ok {
        var stored := row.value;
        row := Some(saved.(remoteId := stored.remoteId, attention := stored.attention, syncedAt := stored.syncedAt));
      }
    }

    method HardDelete()
      modifies this
      ensures row == None
    {
      row := None;
    }
  }

  // --- the end of a setup ----------------------------------------------------------

  function Joined(messages: seq<string>): string {
    if messages == [] then ""
    else if |messages| == 1 then messages[0]
    else Joined(messages[..|messages| - 1]) + "; " + messages[|messages| - 1]
  }

  /** Appending a message gives the text of all of them, except after a single
      empty message. */
  lemma AppendedIsJoined(messages: seq<string>, m: string)
    ensures Appended(Joined(messages), m) == Joined(messages + [m]) <==> messages != [""]
  {
    assert (messages + [m])[..|messages|] == messages;
    if messages == [""] {
      assert Joined(messages + [m]) == "" + "; " + m;
      assert |Joined(messages + [m])| == |m| + 2;
    }
  }

  /** How the foreground steps ended. */
  datatype Ending = Clean(warnings: seq<string>) | Failed(message: string)

  /** `failed` lists the background failures recorded so far, each step once. */
  datatype Setup = Setup(row: Option<Row>, ending: Option<Ending>, failed: seq<(nat, string)>)

  datatype SetupStep = Complete(ending: Ending) | BackgroundFails(step: nat, message: string)

  predicate Recorded(s: Setup, step: nat) {
    exists i :: 0 <= i < |s.failed| && s.failed[i].0 == step
  }

  /** Background failures wait until the setup is complete before they are
      recorded, each step once. */
  function SetupNext(s: Setup, step: SetupStep): Setup {
    match step
    case Complete(ending) =>
      if s.ending.Some? || s.row.None? then s
      else
        var r := s.row.value;
        s.(ending := Some(ending),
           row := Some(if ending.Clean? then r.(status := Active, error := Joined(ending.warnings))
                       else r.(status := Broken, error := ending.message)))
    case BackgroundFails(k, message) =>
      if s.ending.None? || Recorded(s, k) then s
      else s.(row := ErrorAppended(s.row, message, {Active}), failed := s.failed + [(k, message)])
  }

  function SetupRun(row: Row, steps: seq<SetupStep>): Setup {
    if steps == [] then Setup(Some(row), None, [])
    else SetupNext(SetupRun(row, steps[..|steps| - 1]), steps[|steps| - 1])
  }

  function Messages(failed: seq<(nat, string)>): seq<string> {
    seq(|failed|, i requires 0 <= i < |failed| => failed[i].1)
  }

  ghost predicate NoneTwice(failed: seq<(nat, string)>) {
    forall i, j :: 0 <= i < j < |failed| ==> failed[i].0 != failed[j].0
  }

  /** In every interleaving of a setup's end with its background steps, the
      error text of the active session is its foreground warnings followed by
      the background failures, each once, unless the first message is empty. */
  lemma {:induction false} TextHoldsEverything(row: Row, steps: seq<SetupStep>)
    ensures var s := SetupRun(row, steps);
            && s.row.Some? && NoneTwice(s.failed) && (s.ending.None? ==> s.failed == [] && s.row.value == row)
            && (s.ending.Some? ==> s.row.value.status == if s.ending.value.Clean? then Active else Broken)
            && (s.ending.Some? && s.ending.value.Failed? ==> s.row.value.error == s.ending.value.message)
            && (s.ending.Some? && s.ending.value.Clean? ==>
                  var all := s.ending.value.warnings + Messages(s.failed);
                  (all != [] ==> all[0] != "") ==> s.row.value.error == Joined(all))
  {
    if steps != [] {
      var s, step := SetupRun(row, steps[..|steps| - 1]), steps[|steps| - 1];
      TextHoldsEverything(row, steps[..|steps| - 1]);
      match step
      case Complete(ending) =>
        if s.ending.None? && ending.Clean? {
          assert Messages([]) == [];
          assert ending.warnings + [] == ending.warnings;
        }
      case BackgroundFails(k, message) =>
        if s.ending.Some? && !Recorded(s, k) && s.ending.value.Clean? {
          var all := s.ending.value.warnings + Messages(s.failed);
          assert Messages(s.failed + [(k, message)]) == Messages(s.failed) + [message];
          assert s.ending.value.warnings + Messages(s.failed + [(k, message)]) == all + [message];
          AppendedIsJoined(all, message);
        }
    }
  }

  /** The setup of one session, on its store. */
  class SetupEnd {
    const store: SessionStore
    var ending: Option<Ending>
    var failed: seq<(nat, string)>

    ghost function View(): Setup
      reads this, store
    {
      Setup(store.row, ending, failed)
    }

    constructor (store: SessionStore)
      ensures this.store == store && ending == None && failed == []
    {
      this.store := store;
      ending, failed := None, [];
    }

    method CompleteSetup(result: Ending)
      requires ending.None? && store.row.Some?
      modifies this, store
      ensures View() == SetupNext(old(View()), Complete(result))
    {
      var sess := store.row.value;
      if result.Failed? {
        sess := sess.(status := Broken, error := result.message);
      } else {
        sess := sess.(status := Active, error := Joined(result.warnings));
      }
      var _ := store.Update(sess);
      ending := Some(result);
    }

    method RecordBackgroundFailure(step: nat, message: string)
      requires ending.Some? && !Recorded(View(), step)
      modifies this, store
      ensures View() == SetupNext(old(View()), BackgroundFails(step, message))
    {
      store.AppendStatusError(message, {Active});
      failed := failed + [(step, message)];
    }
  }

  // --- remote sessions ----------------------------------------------------------------

  /** Operations on the remote side that were started and have not finished. */
  datatype Op = CreateOp | ResumeOp | ActivateOp | ArchiveOp | DeleteOp

  datatype Remote = Remote(row: Option<Row>, ops: multiset<Op>)

  datatype RemoteStep =
    | Poll(status: Status, error: string, attention: string, at: Time)
    | KnowRemote
    | Finish(op: Op, ok: bool, message: string)
    | Activate
    | Archive
    | Delete(force: bool)
    | AttachedElsewhere
    | Restart

  predicate CanArchive(status: Status) {
    status in MIRRORED
  }

  function Finished(row: Option<Row>, op: Op, ok: bool, message: string): Option<Row> {
    match op
    case CreateOp => if ok then CreateFinished(row, Active, "") else CreateFinished(row, Broken, message)
    case ResumeOp =>
      if ok then MarkedAttached(StatusWhere(row, Active, "", {Creating}))
      else StatusWhere(row, Archived, "activate failed: " + message, {Creating})
    case ActivateOp =>
      if ok then MarkedAttached(ErrorWhere(row, "", MIRRORED))
      else ErrorWhere(row, "activate failed: " + message, MIRRORED)
    case ArchiveOp => if ok then row else ErrorWhere(row, "archive failed: " + message, {Archived})
    case DeleteOp => if ok then None else StatusWhere(row, Archived, "delete failed: " + message, {Deleted})
  }

  function Recovered(row: Row): Remote {
    if row.status == Creating then
      if row.toCreate then Remote(Some(row), multiset{CreateOp})
      else if row.remoteId then
        Remote(Some(row.(status := Archived, error := "reactivation interrupted by daemon restart")), multiset{})
      else Remote(Some(row.(status := Broken, error := "creation interrupted by daemon restart")), multiset{})
    else if row.status == Deleted then Remote(Some(row), multiset{DeleteOp})
    else Remote(Some(row), multiset{})
  }

  /** What each request and each completion does. A request is one atomic load
      and save; a restart loses every operation and takes some up again. */
  function RemoteNext(s: Remote, step: RemoteStep): Remote {
    if s.row.None? then
      if step.Finish? && step.op in s.ops then s.(ops := s.ops - multiset{step.op}) else s
    else
      var r := s.row.value;
      match step
      case Poll(status, error, attention, at) => s.(row := Mirrored(s.row, status, error, attention, at))
      case KnowRemote => if CreateOp in s.ops then s.(row := Some(r.(remoteId := true))) else s
      case Finish(op, ok, message) =>
        if op !in s.ops then s else Remote(Finished(s.row, op, ok, message), s.ops - multiset{op})
      case Activate =>
        if r.status in {Creating, Broken, Deleted} then s
        else if r.status == Archived then Remote(Some(r.(status := Creating, error := "")), s.ops + multiset{ResumeOp})
        else if r.attached then s
        else s.(ops := s.ops + multiset{ActivateOp})
      case Archive =>
        if !CanArchive(r.status) then s
        else Remote(Some(r.(status := Archived, attached := false, error := "")), s.ops + multiset{ArchiveOp})
      case Delete(force) =>
        if r.attached || (!force && r.status != Archived) then s
        else Remote(Some(r.(status := Deleted, attached := false)), s.ops + multiset{DeleteOp})
      case AttachedElsewhere => s.(row := Some(r.(attached := false)))
      case Restart => Recovered(r)
  }

  /** A poll never moves a session into or out of being created, archived or
      deleted, and always records what it found. */
  lemma PollOnlyMirrors(s: Remote, status: Status, error: string, attention: string, at: Time)
    requires s.row.Some?
    ensures var t := RemoteNext(s, Poll(status, error, attention, at));
            && t.row.Some? && t.ops == s.ops && t.row.value.attention == attention && t.row.value.syncedAt == Some(at)
            && (t.row.value.(attention := s.row.value.attention, syncedAt := s.row.value.syncedAt) != s.row.value ==>
                  s.row.value.status in MIRRORED && t.row.value.status == status && status in MIRRORED)
            && t.row.value.attached == s.row.value.attached
  {
  }

  function RemoteRun(start: Remote, steps: seq<RemoteStep>): Remote {
    if steps == [] then start else RemoteNext(RemoteRun(start, steps[..|steps| - 1]), steps[|steps| - 1])
  }

  predicate Calm(steps: seq<RemoteStep>) {
    forall i :: 0 <= i < |steps| ==>
      !steps[i].Activate? && !steps[i].Delete? && !(steps[i].Finish? && steps[i].op == DeleteOp)
  }

  /** A late completion other than a deletion's leaves an archived or deleted
      session where it is. */
  lemma LateCompletionIsHarmless(row: Row, op: Op, ok: bool, message: string)
    requires row.status in {Archived, Deleted} && op != DeleteOp
    ensures Finished(Some(row), op, ok, message).Some?
    ensures Finished(Some(row), op, ok, message).value.status == row.status
  {
    match op
    case ResumeOp =>
    case _ =>
  }

  lemma ArchivedStep(s: Remote, step: RemoteStep)
    requires s.row.Some? && s.row.value.status == Archived
    requires !step.Activate? && !step.Delete? && !(step.Finish? && step.op == DeleteOp)
    ensures RemoteNext(s, step).row.Some? && RemoteNext(s, step).row.value.status == Archived
  {
    match step
    case Finish(op, ok, message) => LateCompletionIsHarmless(s.row.value, op, ok, message);
    case _ =>
  }

  lemma DeletedStep(s: Remote, step: RemoteStep)
    requires s.row.Some? && s.row.value.status == Deleted && !(step.Finish? && step.op == DeleteOp)
    ensures RemoteNext(s, step).row.Some? && RemoteNext(s, step).row.value.status == Deleted
  {
    match step
    case Finish(op, ok, message) => LateCompletionIsHarmless(s.row.value, op, ok, message);
    case _ =>
  }

  /** An archived session stays archived, whatever late completions and polls
      come in, until somebody activates or deletes it or a deletion under way
      succeeds. */
  lemma {:induction false} ArchivedStays(start: Remote, steps: seq<RemoteStep>)
    requires start.row.Some? && start.row.value.status == Archived && Calm(steps)
    ensures RemoteRun(start, steps).row.Some? && RemoteRun(start, steps).row.value.status == Archived
  {
    if steps != [] {
      ArchivedStays(start, steps[..|steps| - 1]);
      ArchivedStep(RemoteRun(start, steps[..|steps| - 1]), steps[|steps| - 1]);
    }
  }

  /** A deleted session stays deleted until a deletion ends; then it is gone, or
      archived again if the deletion failed. */
  lemma {:induction false} DeletedStays(start: Remote, steps: seq<RemoteStep>)
    requires start.row.Some? && start.row.value.status == Deleted
    requires forall i :: 0 <= i < |steps| ==> !(steps[i].Finish? && steps[i].op == DeleteOp)
    ensures RemoteRun(start, steps).row.Some? && RemoteRun(start, steps).row.value.status == Deleted
  {
    if steps != [] {
      DeletedStays(start, steps[..|steps| - 1]);
      DeletedStep(RemoteRun(start, steps[..|steps| - 1]), steps[|steps| - 1]);
    }
  }

  /** The operations that end the creating status. */
  function Enders(ops: multiset<Op>): nat {
    ops[CreateOp] + ops[ResumeOp]
  }

  /** Exactly one such operation is under way while the session is being
      created, and none otherwise. */
  ghost predicate OneEnder(s: Remote) {
    s.row.Some? ==> Enders(s.ops) == if s.row.value.status == Creating then 1 else 0
  }

  predicate Unforced(steps: seq<RemoteStep>) {
    forall i :: 0 <= i < |steps| ==> steps[i] != Delete(true)
  }

  lemma FinishKeepsOneEnder(s: Remote, op: Op, ok: bool, message: string)
    requires OneEnder(s)
    ensures OneEnder(RemoteNext(s, Finish(op, ok, message)))
  {
    if op in s.ops {
      match op
      case CreateOp =>
      case ResumeOp =>
      case _ => assert Enders(s.ops - multiset{op}) == Enders(s.ops);
    }
  }

  /** A step from such a state keeps it exactly when it is no forced deletion
      that takes effect while the session is being created. */
  lemma OneEnderIff(s: Remote, step: RemoteStep)
    requires s.row.Some? && OneEnder(s)
    ensures OneEnder(RemoteNext(s, step)) <==>
            !(step == Delete(true) && s.row.value.status == Creating && !s.row.value.attached)
  {
    match step
    case Finish(op, ok, message) => FinishKeepsOneEnder(s, op, ok, message);
    case Activate => ActivateKeepsOneEnder(s);
    case Archive => ArchiveKeepsOneEnder(s);
    case Delete(force) => DeleteKeepsOneEnder(s, force);
    case _ =>
  }

  lemma ActivateKeepsOneEnder(s: Remote)
    requires s.row.Some? && OneEnder(s)
    ensures OneEnder(RemoteNext(s, Activate))
  {
    EndersAdded(s.ops);
  }

  lemma ArchiveKeepsOneEnder(s: Remote)
    requires s.row.Some? && OneEnder(s)
    ensures OneEnder(RemoteNext(s, Archive))
  {
    EndersAdded(s.ops);
  }

  lemma DeleteKeepsOneEnder(s: Remote, force: bool)
    requires s.row.Some? && OneEnder(s)
    ensures OneEnder(RemoteNext(s, Delete(force))) <==>
            !(force && s.row.value.status == Creating && !s.row.value.attached)
  {
    EndersAdded(s.ops);
  }

  lemma EndersAdded(ops: multiset<Op>)
    ensures Enders(ops + multiset{ResumeOp}) == Enders(ops) + 1
    ensures Enders(ops + multiset{ActivateOp}) == Enders(ops + multiset{ArchiveOp}) == Enders(ops)
    ensures Enders(ops + multiset{DeleteOp}) == Enders(ops)
  {
  }

  /** Unless a session is deleted by force while being created, every late
      completion ends its own operation: creating is ended only by the one
      operation that was started for it. */
  lemma {:induction false} CompletionsEndTheirOwn(start: Remote, steps: seq<RemoteStep>)
    requires OneEnder(start) && Unforced(steps)
    ensures OneEnder(RemoteRun(start, steps))
  {
    if steps != [] {
      CompletionsEndTheirOwn(start, steps[..|steps| - 1]);
      var s := RemoteRun(start, steps[..|steps| - 1]);
      if s.row.Some? {
        OneEnderIff(s, steps[|steps| - 1]);
      }
    }
  }

  const NEW := Remote(Some(Row.Row(Creating, "", true, false, false, "", None)), multiset{CreateOp})
  const DELETED := [Delete(true)]
  const KEPT := DELETED + [Finish(DeleteOp, false, "offline")]
  const BACK := KEPT + [Activate]
  const FORCED := BACK + [Finish(CreateOp, true, "")]

  lemma RemoteStepOf(start: Remote, steps: seq<RemoteStep>, step: RemoteStep)
    ensures RemoteRun(start, steps + [step]) == RemoteNext(RemoteRun(start, steps), step)
  {
    assert (steps + [step])[..|steps|] == steps;
  }

  lemma DeletedWhileCreating()
    ensures RemoteRun(NEW, DELETED).ops == multiset{CreateOp, DeleteOp}
    ensures var s := RemoteRun(NEW, DELETED); s.row.Some? && s.row.value.status == Deleted
  {
    RemoteStepOf(NEW, [], Delete(true));
    assert [] + [Delete(true)] == DELETED;
  }

  lemma AfterFailedDeletion()
    ensures var s := RemoteRun(NEW, KEPT); s.row.Some? && s.row.value.status == Archived && s.ops == multiset{CreateOp}
  {
    DeletedWhileCreating();
    RemoteStepOf(NEW, DELETED, Finish(DeleteOp, false, "offline"));
  }

  lemma Reactivated()
    ensures var s := RemoteRun(NEW, BACK);
            s.row.Some? && s.row.value.status == Creating && s.ops == multiset{CreateOp, ResumeOp}
  {
    AfterFailedDeletion();
    RemoteStepOf(NEW, KEPT, Activate);
  }

  /** Deleted by force while being created, then brought back: the first
      creation, finishing late, marks the session active although its
      reactivation is still under way. */
  lemma ForcedDeletionConfuses()
    ensures var s := RemoteRun(NEW, FORCED); s.row.Some? && s.row.value.status == Active && ResumeOp in s.ops
  {
    Reactivated();
    RemoteStepOf(NEW, BACK, Finish(CreateOp, true, ""));
  }

  // --- attached sessions -------------------------------------------------------------

  /** A session that is archived, deleted or being created is not attached. */
  ghost predicate Detached(s: Remote) {
    s.row.Some? && s.row.value.status in {Archived, Deleted, Creating} ==> !s.row.value.attached
  }

  /** An activation ends well after the session was archived or deleted, or one
      of an active session while it is being created again. */
  ghost predicate AttachesLate(s: Remote, step: RemoteStep) {
    && s.row.Some? && step.Finish? && step.ok && step.op in s.ops
    && (|| (step.op == ActivateOp && s.row.value.status in {Archived, Deleted, Creating})
        || (step.op == ResumeOp && s.row.value.status in {Archived, Deleted}))
  }

  /** A step from such a state keeps it exactly when it is no late activation. */
  lemma DetachedIff(s: Remote, step: RemoteStep)
    requires Detached(s)
    ensures Detached(RemoteNext(s, step)) <==> !AttachesLate(s, step)
  {
    match step
    case Finish(op, ok, message) => FinishDetachedIff(s, op, ok, message);
    case _ =>
  }

  lemma FinishDetachedIff(s: Remote, op: Op, ok: bool, message: string)
    requires Detached(s)
    ensures Detached(RemoteNext(s, Finish(op, ok, message))) <==> !AttachesLate(s, Finish(op, ok, message))
  {
    match op
    case ResumeOp =>
    case _ =>
  }

  ghost predicate AlwaysDetached(start: Remote, steps: seq<RemoteStep>) {
    Detached(RemoteRun(start, steps)) && (steps != [] ==> AlwaysDetached(start, steps[..|steps| - 1]))
  }

  ghost predicate NeverAttachesLate(start: Remote, steps: seq<RemoteStep>) {
    || steps == []
    || (&& NeverAttachesLate(start, steps[..|steps| - 1])
        && !AttachesLate(RemoteRun(start, steps[..|steps| - 1]), steps[|steps| - 1]))
  }

  /** A run keeps it throughout exactly when no activation ends late in it. */
  lemma {:induction false} DetachedThroughout(start: Remote, steps: seq<RemoteStep>)
    requires Detached(start)
    ensures AlwaysDetached(start, steps) <==> NeverAttachesLate(start, steps)
  {
    if steps != [] {
      var before, step := RemoteRun(start, steps[..|steps| - 1]), steps[|steps| - 1];
      DetachedThroughout(start, steps[..|steps| - 1]);
      assert RemoteRun(start, steps) == RemoteNext(before, step);
      if Detached(before) {
        DetachedIff(before, step);
      }
    }
  }

  /** No activation is under way. */
  predicate NoneActivating(ops: multiset<Op>) {
    ActivateOp !in ops && ResumeOp !in ops
  }

  /** Nobody archives or deletes the session while an activation is under way. */
  ghost predicate Orderly(start: Remote, steps: seq<RemoteStep>) {
    steps == [] ||
    var before, step := RemoteRun(start, steps[..|steps| - 1]), steps[|steps| - 1];
    Orderly(start, steps[..|steps| - 1]) && (step.Archive? || step.Delete? ==> NoneActivating(before.ops))
  }

  /** No activation is under way that could still end late. */
  ghost predicate NoneLate(s: Remote) {
    s.row.Some? ==>
      && (s.row.value.status in {Archived, Deleted} ==> NoneActivating(s.ops))
      && (s.row.value.status == Creating ==> ActivateOp !in s.ops && s.ops[ResumeOp] <= 1)
  }

  lemma NoneLateFinish(s: Remote, op: Op, ok: bool, message: string)
    requires NoneLate(s)
    ensures NoneLate(RemoteNext(s, Finish(op, ok, message)))
  {
    if op in s.ops && s.row.Some? {
      assert forall o :: (s.ops - multiset{op})[o] <= s.ops[o];
      match op
      case ResumeOp => assert (s.ops - multiset{op})[ResumeOp] == s.ops[ResumeOp] - 1;
      case _ =>
    }
  }

  lemma NoneLateStep(s: Remote, step: RemoteStep)
    requires NoneLate(s) && (step.Archive? || step.Delete? ==> NoneActivating(s.ops))
    ensures NoneLate(RemoteNext(s, step))
  {
    match step
    case Finish(op, ok, message) => NoneLateFinish(s, op, ok, message);
    case _ =>
  }

  lemma NoneLateIsDetached(s: Remote, step: RemoteStep)
    requires NoneLate(s)
    ensures !AttachesLate(s, step)
  {
  }

  /** So in orderly runs a session that is archived, deleted or being created is
      never attached. */
  lemma {:induction false} OrderlyStaysDetached(start: Remote, steps: seq<RemoteStep>)
    requires Detached(start) && NoneLate(start) && Orderly(start, steps)
    ensures Detached(RemoteRun(start, steps)) && NoneLate(RemoteRun(start, steps))
  {
    if steps != [] {
      var before, step := RemoteRun(start, steps[..|steps| - 1]), steps[|steps| - 1];
      OrderlyStaysDetached(start, steps[..|steps| - 1]);
      NoneLateIsDetached(before, step);
      DetachedIff(before, step);
      NoneLateStep(before, step);
      assert RemoteRun(start, steps) == RemoteNext(before, step);
    }
  }

  const LATE := [Activate, Archive, Finish(ActivateOp, true, "")]

  /** Activated while active and archived before that ended: the session is
      archived and attached. */
  lemma LateActivationAttaches(row: Row)
    requires row.status in {Active, Inactive, Completed} && !row.attached
    ensures var s := RemoteRun(Remote(Some(row), multiset{}), LATE);
            s.row.Some? && s.row.value.status == Archived && s.row.value.attached
  {
    var start, away := Remote(Some(row), multiset{}), Remote(Some(row), multiset{} + multiset{ActivateOp});
    var steps := [Activate];
    assert steps[..0] == [];
    assert RemoteRun(start, steps) == RemoteNext(start, Activate) == away;
    RemoteStepOf(start, steps, Archive);
    ArchivedWhileActivating(row);
    RemoteStepOf(start, steps + [Archive], Finish(ActivateOp, true, ""));
    assert LATE == steps + [Archive] + [Finish(ActivateOp, true, "")];
  }

  lemma ArchivedWhileActivating(row: Row)
    requires row.status in MIRRORED && !row.attached
    ensures var s := RemoteNext(Remote(Some(row), multiset{} + multiset{ActivateOp}), Archive);
            && s ==
               Remote(Some(row.(status := Archived, attached := false, error := "")),
                      multiset{} + multiset{ActivateOp} + multiset{ArchiveOp})
            && RemoteNext(s, Finish(ActivateOp, true, "")).row ==
               Some(row.(status := Archived, attached := true, error := ""))
  {
  }

  // --- the service's side -----------------------------------------------------------

  /** A remote session: its row and the operations under way. */
  class RemoteSession {
    const store: SessionStore
    var ops: multiset<Op>

    ghost function View(): Remote
      reads this, store
    {
      Remote(store.row, ops)
    }

    constructor (store: SessionStore, ops: multiset<Op>)
      ensures this.store == store && this.ops == ops
    {
      this.store := store;
      this.ops := ops;
    }

    method RunPoll(status: Status, error: string, attention: string, at: Time)
      modifies store
      ensures View() == RemoteNext(old(View()), Poll(status, error, attention, at))
    {
      store.ApplyRemoteState(status, error, attention, at);
    }

    method FinishCreate(ok: bool, message: string)
      requires CreateOp in ops
      modifies this, store
      ensures View() == RemoteNext(old(View()), Finish(CreateOp, ok, message))
    {
      ops := ops - multiset{CreateOp};
      var _ := store.FinishRemoteCreate(if ok then Active else Broken, if ok then "" else message);
    }

    /** The end of an activation, of an archived session when `resume`. */
    method FinishActivate(resume: bool, ok: bool, message: string)
      requires (if resume then ResumeOp else ActivateOp) in ops
      modifies this, store
      ensures View() == RemoteNext(old(View()), Finish(if resume then ResumeOp else ActivateOp, ok, message))
    {
      ops := ops - multiset{if resume then ResumeOp else ActivateOp};
      if !ok {
        if resume {
          var _ := store.UpdateStatusWhere(Archived, "activate failed: " + message, {Creating});
        } else {
          store.SetStatusError("activate failed: " + message, MIRRORED);
        }
        return;
      }
      if resume {
        var _ := store.UpdateStatusWhere(Active, "", {Creating});
      } else {
        store.SetStatusError("", MIRRORED);
      }
      store.MarkAttached();
    }

    method FinishArchive(ok: bool, message: string)
      requires ArchiveOp in ops
      modifies this, store
      ensures View() == RemoteNext(old(View()), Finish(ArchiveOp, ok, message))
    {
      ops := ops - multiset{ArchiveOp};
      if !ok {
        store.SetStatusError("archive failed: " + message, {Archived});
      }
    }

    method FinishDelete(ok: bool, message: string)
      requires DeleteOp in ops
      modifies this, store
      ensures View() == RemoteNext(old(View()), Finish(DeleteOp, ok, message))
    {
      ops := ops - multiset{DeleteOp};
      if ok {
        store.HardDelete();
      } else {
        var _ := store.UpdateStatusWhere(Archived, "delete failed: " + message, {Deleted});
      }
    }

    method ActivateSession() returns (accepted: bool)
      requires store.row.Some?
      modifies this, store
      ensures View() == RemoteNext(old(View()), Activate)
      ensures accepted <==> old(store.row).value.status !in {Creating, Broken, Deleted}
    {
      var sess := store.row.value;
      if sess.status in {Creating, Broken, Deleted} {
        return false;
      }
      accepted := true;
      var resume := sess.status == Archived;
      if sess.attached && !resume {
        return;
      }
      if resume {
        var _ := store.UpdateStatusWhere(Creating, "", {Archived});
        ops := ops + multiset{ResumeOp};
      } else {
        ops := ops + multiset{ActivateOp};
      }
    }

    method ArchiveSession() returns (accepted: bool)
      requires store.row.Some?
      modifies this, store
      ensures View() == RemoteNext(old(View()), Archive)
      ensures accepted <==> CanArchive(old(store.row).value.status)
    {
      var sess := store.row.value;
      accepted := CanArchive(sess.status);
      if accepted {
        var _ := store.Update(sess.(status := Archived, attached := false, error := ""));
        ops := ops + multiset{ArchiveOp};
      }
    }

    method DeleteSession(force: bool) returns (accepted: bool)
      requires store.row.Some?
      modifies this, store
      ensures View() == RemoteNext(old(View()), Delete(force))
      ensures accepted <==> !old(store.row).value.attached && (force || old(store.row).value.status == Archived)
    {
      var sess := store.row.value;
      accepted := !sess.attached && (force || sess.status == Archived);
      if accepted {
        var _ := store.Update(sess.(status := Deleted, attached := false));
        ops := ops + multiset{DeleteOp};
      }
    }
  }
}
