/** How the operations on a remote session end, and that none of its passing
    statuses can last for ever. */
module SessionOutcomes {
  import opened BrowserTypes
  import opened SessionStatus

  /** The operation is under way and ends like this. */
  function Ended(s: Remote, op: Op, ok: bool, message: string): Remote {
    RemoteNext(s, Finish(op, ok, message))
  }

  predicate UnderWay(s: Remote, op: Op, among: set<Status>) {
    op in s.ops && s.row.Some? && s.row.value.status in among
  }

  /** A creation ends active without error, or broken with its message; what was
      to be created is then off the record. */
  lemma CreationEnds(s: Remote, ok: bool, message: string)
    requires UnderWay(s, CreateOp, {Creating})
    ensures var r, r' := s.row.value, Ended(s, CreateOp, ok, message).row;
            r' == if ok then Some(r.(status := Active, error := "", toCreate := false))
                  else Some(r.(status := Broken, error := message, toCreate := false))
  {
  }

  /** A reactivation ends active and attached, or archived again with its
      message. */
  lemma ReactivationEnds(s: Remote, ok: bool, message: string)
    requires UnderWay(s, ResumeOp, {Creating})
    ensures var r, r' := s.row.value, Ended(s, ResumeOp, ok, message).row;
            r' == if ok then Some(r.(status := Active, error := "", attached := true))
                  else Some(r.(status := Archived, error := "activate failed: " + message))
  {
  }

  /** An activation attaches and clears the error, or leaves its message. */
  lemma ActivationEnds(s: Remote, ok: bool, message: string)
    requires UnderWay(s, ActivateOp, {Active, Inactive, Broken, Completed})
    ensures var r, r' := s.row.value, Ended(s, ActivateOp, ok, message).row;
            r' == if ok then Some(r.(error := "", attached := true))
                  else Some(r.(error := "activate failed: " + message))
  {
  }

  lemma ArchivingEnds(s: Remote, ok: bool, message: string)
    requires UnderWay(s, ArchiveOp, {Archived})
    ensures var r, r' := s.row.value, Ended(s, ArchiveOp, ok, message).row;
            r' == Some(if ok then r else r.(error := "archive failed: " + message))
  {
  }

  /** A deletion ends with the session gone, or archived with its message. */
  lemma DeletionEnds(s: Remote, ok: bool, message: string)
    requires UnderWay(s, DeleteOp, {Deleted})
    ensures var r, r' := s.row.value, Ended(s, DeleteOp, ok, message).row;
            r' == if ok then None else Some(r.(status := Archived, error := "delete failed: " + message))
  {
  }

  /** The statuses in which the end of an operation is what its request waits
      for. */
  function AwaitedIn(op: Op): set<Status> {
    match op
    case CreateOp => {Creating}
    case ResumeOp => {Creating}
    case ActivateOp => {Active, Inactive, Broken, Completed}
    case ArchiveOp => {Archived}
    case DeleteOp => {Deleted}
  }

  /** The end of an operation in another status changes nothing but that a
      successful activation still attaches the session and a successful deletion
      still removes it; in any case the operation is over. */
  lemma LateEnd(s: Remote, op: Op, ok: bool, message: string)
    requires op in s.ops && s.row.Some?
    ensures Ended(s, op, ok, message).ops == s.ops - multiset{op}
    ensures s.row.value.status !in AwaitedIn(op) ==>
              Ended(s, op, ok, message).row ==
              if !ok || op == CreateOp || op == ArchiveOp then s.row
              else if op == DeleteOp then None
              else Some(s.row.value.(attached := true))
  {
    match op
    case ResumeOp =>
    case _ =>
  }

  /** A poll is taken over exactly between statuses the remote side may set. */
  lemma PollMirrors(s: Remote, status: Status, error: string, attention: string, at: Time)
    requires s.row.Some?
    ensures var r, both := s.row.value, status in MIRRORED && s.row.value.status in MIRRORED;
            RemoteNext(s, Poll(status, error, attention, at)) ==
            Remote(Some(SessionStatus.Row.Row(if both then status else r.status, if both then error else r.error,
                                              r.toCreate, r.remoteId, r.attached, attention, Some(at))),
                   s.ops)
  {
  }

  // --- nothing stays under way for ever ------------------------------------------

  /** While the session is being created or deleted, an operation that ends that
      is under way. */
  predicate Attended(s: Remote) {
    s.row.Some? ==>
      && (s.row.value.status == Creating ==> CreateOp in s.ops || ResumeOp in s.ops)
      && (s.row.value.status == Deleted ==> DeleteOp in s.ops)
  }

  lemma StepKeepsAttended(s: Remote, step: RemoteStep)
    requires Attended(s)
    ensures Attended(RemoteNext(s, step))
  {
    match step
    case Finish(op, ok, message) => EndKeepsAttended(s, op, ok, message);
    case _ =>
  }

  lemma EndKeepsAttended(s: Remote, op: Op, ok: bool, message: string)
    requires Attended(s)
    ensures Attended(Ended(s, op, ok, message))
  {
    if s.row.Some? && op in s.ops {
      LateEnd(s, op, ok, message);
      if s.row.value.status in AwaitedIn(op) {
        match op
        case CreateOp => CreationEnds(s, ok, message);
        case ResumeOp => ReactivationEnds(s, ok, message);
        case ActivateOp => ActivationEnds(s, ok, message);
        case ArchiveOp => ArchivingEnds(s, ok, message);
        case DeleteOp => DeletionEnds(s, ok, message);
      }
    }
  }

  /** In every run, restarts and forced deletions included, a session that is
      being created or deleted has an operation under way that will end that. */
  lemma {:induction false} NeverStuck(start: Remote, steps: seq<RemoteStep>)
    requires Attended(start)
    ensures Attended(RemoteRun(start, steps))
  {
    if steps != [] {
      NeverStuck(start, steps[..|steps| - 1]);
      StepKeepsAttended(RemoteRun(start, steps[..|steps| - 1]), steps[|steps| - 1]);
    }
  }

  /** A restart loses every operation: a creation or deletion is taken up again;
      of a session that was being created without one, a known remote one is
      archived and an unknown one broken; any other stays as it is. */
  lemma RestartRecovers(s: Remote)
    requires s.row.Some?
    ensures var r, t := s.row.value, RemoteNext(s, Restart);
            && t.row.Some?
            && t.ops == (if r.status == Creating && r.toCreate then multiset{CreateOp}
                         else if r.status == Deleted then multiset{DeleteOp} else multiset{})
            && (r.status != Creating || r.toCreate ==> t.row == s.row)
            && (r.status == Creating && !r.toCreate ==>
                  && t.row.value.status == (if r.remoteId then Archived else Broken)
                  && t.row.value.(status := r.status, error := r.error) == r
                  && t.row.value.error == if r.remoteId then "reactivation interrupted by daemon restart"
                                          else "creation interrupted by daemon restart")
  {
  }

  /** An activation is refused while the session is being created, is broken or
      deleted; an archived session is created again, any other one is attached
      unless it is already. */
  lemma ActivationStarts(s: Remote)
    requires s.row.Some?
    ensures var r, t := s.row.value, RemoteNext(s, Activate);
            match r.status
            case Creating => t == s
            case Broken => t == s
            case Deleted => t == s
            case Archived => t == Remote(Some(r.(status := Creating, error := "")), s.ops + multiset{ResumeOp})
            case _ => t == if r.attached then s else Remote(s.row, s.ops + multiset{ActivateOp})
  {
  }

  /** The session is no longer attached. */
  function Left(r: SessionStatus.Row, status: Status, error: string): SessionStatus.Row {
    SessionStatus.Row.Row(status, error, r.toCreate, r.remoteId, false, r.attention, r.syncedAt)
  }

  /** Archiving takes a session the remote side runs, attached or not; deleting
      takes a detached one that is archived, or any by force. */
  lemma ArchivingAndDeletionStart(s: Remote, force: bool)
    requires s.row.Some?
    ensures var r, archived, deleted := s.row.value, RemoteNext(s, Archive), RemoteNext(s, Delete(force));
            && archived == (if r.status in {Active, Inactive, Broken, Completed}
                            then Remote(Some(Left(r, Archived, "")), s.ops + multiset{ArchiveOp})
                            else s)
            && deleted == (if !r.attached && (force || r.status == Archived)
                           then Remote(Some(Left(r, Deleted, r.error)), s.ops + multiset{DeleteOp})
                           else s)
  {
  }
}
