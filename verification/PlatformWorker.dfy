/** `process_lease`: one worker handling one lease while other clients keep committing. */
module PlatformWorker {
  import opened Prelude
  import opened PlatformModel
  import opened PlatformRuns
  import opened PlatformLeases
  import Db = PlatformDb

  datatype Failure = BadPdf | TimedOut | WorkerFailed | Unhandled

  /** How the handler body goes: an exception before or in the second heartbeat, one after it, or a result. */
  datatype Work = FailsEarly(early: Failure) | FailsLate(late: Failure) | Produces(result: string)

  /**
   * Whether a database call is answered; a connection lost on the way loses the reply, or the
   * transaction as well. It is raised as an OSError or as an error of the driver's own class.
   */
  datatype Reply = Answered | Lost(committed: bool, osError: bool)

  /** `Crashed` is an exception that no clause catches. */
  datatype Ending = Returned | RaisedJobNotFound | RaisedOsError | Crashed

  /** The arguments of a `finish` call. */
  datatype FinishCall = FinishCall(result: Option<string>, error: Option<string>, retryable: bool)

  /** The job is left as a `finish` with these arguments leaves it, whatever its attempts and its cancel flag were. */
  ghost predicate ClosedBy(s: Store, j: JobId, call: FinishCall) {
    j in s.jobs && ClosedAs(s.jobs[j], call.result, call.error, call.retryable)
  }

  /** One `finish` call. */
  method Close(db: Db.PlatformDatabase, job: JobId, owner: Owner, result: Option<string>, error: Option<string>,
               retryable: bool, reply: Reply) returns (ending: Ending)
    modifies db
    ensures ending == RaisedOsError <==> reply.Lost? && reply.osError
    ensures ending == Crashed <==> reply.Lost? && !reply.osError
    ensures reply.Answered? || reply.committed ==> !Holds(db.Snapshot(), job, owner)
    ensures reply.Lost? && !reply.committed ==> db.Snapshot() == old(db.Snapshot())
    ensures reply.Answered? ==> (ending == Returned <==> Holds(old(db.Snapshot()), job, owner))
    ensures ending == Returned ==> ClosedBy(db.Snapshot(), job, FinishCall(result, error, retryable))
    ensures reply.Lost? && reply.committed && Holds(old(db.Snapshot()), job, owner) ==>
            ClosedBy(db.Snapshot(), job, FinishCall(result, error, retryable))
  {
    var failed := if reply.Lost? && reply.osError then RaisedOsError else Crashed;
    if reply.Lost? && !reply.committed { return failed; }
    var found := db.Finish(job, owner, result, error, retryable);
    ending := if reply.Lost? then failed else if found then Returned else RaisedJobNotFound;
  }

  /** The `finish` call that each caught failure leads to. */
  function CallFor(failure: Failure): FinishCall {
    match failure
    case BadPdf => FinishCall(None, Some("invalid_or_unsupported_pdf"), false)
    case TimedOut => FinishCall(None, Some("worker_timeout"), true)
    case _ => FinishCall(None, Some("worker_failed"), true)
  }

  /** What a caught failure leaves in the row: only a bad PDF is not worth another attempt. */
  ghost predicate ReportedAs(row: Job, failure: Failure) {
    && row.result.None?
    && row.error == Some(if failure == BadPdf then "invalid_or_unsupported_pdf"
                         else if failure == TimedOut then "worker_timeout" else "worker_failed")
    && row.state in {Queued, Failed, Cancelled}
    && (row.state == Cancelled <==> row.cancelRequested)
    && (row.state == Queued <==> failure != BadPdf && row.attempt < row.maxAttempts && !row.cancelRequested)
  }

  /**
   * The `except` clauses: which `finish` call a failure leads to. What it raises, and an unhandled
   * failure, escapes.
   */
  method Report(db: Db.PlatformDatabase, job: JobId, owner: Owner, failure: Failure, reply: Reply)
    returns (ending: Ending)
    modifies db
    ensures ending == Crashed <==> failure == Unhandled || reply.Lost?
    ensures ending != Crashed ==> !Holds(db.Snapshot(), job, owner)
    ensures ending != Crashed ==> (ending == Returned <==> Holds(old(db.Snapshot()), job, owner))
    ensures ending == Returned ==> ClosedBy(db.Snapshot(), job, CallFor(failure))
    ensures ending == Returned ==> ReportedAs(db.jobs[job], failure)
  {
    match failure {
      case BadPdf => ending := Close(db, job, owner, None, Some("invalid_or_unsupported_pdf"), false, reply);
      case TimedOut => ending := Close(db, job, owner, None, Some("worker_timeout"), true, reply);
      case WorkerFailed => ending := Close(db, job, owner, None, Some("worker_failed"), true, reply);
      case Unhandled => ending := Crashed;
    }
    if ending == RaisedOsError { ending := Crashed; }
  }

  /** A `finish` call inside the `try`: only an OSError it raises is reported, like a failed worker. */
  method CloseOrReport(db: Db.PlatformDatabase, job: JobId, owner: Owner, result: Option<string>, reply: Reply,
                       others: seq<Action>, lastReply: Reply) returns (ending: Ending)
    modifies db
    ensures ending == Crashed <==> reply.Lost? && (!reply.osError || lastReply.Lost?)
    ensures ending != Crashed ==> !Holds(db.Snapshot(), job, owner)
    ensures reply.Answered? ==> (ending == Returned <==> Holds(old(db.Snapshot()), job, owner))
    ensures ending == Returned ==>
            ClosedBy(db.Snapshot(), job, if reply.Lost? then CallFor(WorkerFailed) else FinishCall(result, None, false))
  {
    ending := Close(db, job, owner, result, None, false, reply);
    if ending == RaisedOsError {
      db.Others(others);
      ending := Report(db, job, owner, WorkerFailed, lastReply);
    }
  }

  predicate Unexpected(work: Work) { work == FailsEarly(Unhandled) || work == FailsLate(Unhandled) }

  /** What other clients commit, and time, after each step of the handler. */
  datatype Environment = Environment(first: seq<Action>, second: seq<Action>, third: seq<Action>)

  /** A heartbeat is refused: the lease is no longer the handler's, has run out, or the job is to be cancelled. */
  predicate Refused(s: Store, j: JobId, owner: Owner) {
    !(Holds(s, j, owner) && s.jobs[j].expires.Some? && s.clock <= s.jobs[j].expires.value) || s.jobs[j].cancelRequested
  }

  /** A heartbeat, and then what others commit: the lease can go on exactly when it was not refused. */
  method Beat(db: Db.PlatformDatabase, job: JobId, owner: Owner, stage: string, seconds: int, others: seq<Action>)
    returns (goOn: bool)
    modifies db
    ensures goOn <==> !Refused(old(db.Snapshot()), job, owner)
    ensures db.Snapshot() == Run(Step(old(db.Snapshot()), DoHeartbeat(job, owner, stage, seconds)), others)
  {
    goOn := db.Heartbeat(job, owner, stage, seconds);
    db.Others(others);
  }

  /** What the tables hold when the second heartbeat is sent. */
  function BeforeSecond(s: Store, j: JobId, owner: Owner, seconds: int, others: Environment): Store {
    Run(Step(s, DoHeartbeat(j, owner, "downloading", seconds)), others.first)
  }

  /**
   * The `finish` call that closes the job, if the handler gets that far: after a refused
   * heartbeat one with nothing to report, after a failure the one for that failure, otherwise
   * the one with the result. Inside the `try` a connection lost with an OSError turns it into the
   * call for a failed worker.
   */
  function LastCall(s: Store, j: JobId, owner: Owner, seconds: int, work: Work, others: Environment, reply: Reply)
    : FinishCall
  {
    var nothing := FinishCall(None, None, false);
    if Refused(s, j, owner) then nothing
    else match work
         case FailsEarly(failure) => CallFor(failure)
         case FailsLate(failure) =>
           if !Refused(BeforeSecond(s, j, owner, seconds, others), j, owner) then CallFor(failure)
           else if reply.Lost? then CallFor(WorkerFailed) else nothing
         case Produces(result) =>
           if reply.Lost? then CallFor(WorkerFailed)
           else if Refused(BeforeSecond(s, j, owner, seconds, others), j, owner) then nothing
           else FinishCall(Some(result), None, false)
  }

  /**
   * Unless an unexpected exception or a lost connection kills it, a handler ends with the
   * lease no longer its own. If its last `finish` found the lease still its own, the job is left
   * as `LastCall` says: cancelled exactly when a cancel request had arrived by then, succeeded
   * exactly with a result, back in the queue exactly after a retryable failure with attempts left,
   * and failed otherwise.
   */
  method ProcessLease(db: Db.PlatformDatabase, lease: Db.Lease, owner: Owner, seconds: int, work: Work,
                      others: Environment, reply: Reply, lastReply: Reply)
    returns (ending: Ending)
    modifies db
    ensures ending == Crashed ==> Unexpected(work) || reply.Lost? || lastReply.Lost?
    ensures ending == Crashed && reply == Answered ==> Unexpected(work) || (lastReply.Lost? && !work.Produces?)
    ensures ending != Crashed ==> !Holds(db.Snapshot(), lease.job, owner)
    ensures ending == Returned ==>
            ClosedBy(db.Snapshot(), lease.job,
                     LastCall(old(db.Snapshot()), lease.job, owner, seconds, work, others, reply))
    ensures ending == Returned ==>
            lease.job in db.jobs &&
            var row, second := db.jobs[lease.job], BeforeSecond(old(db.Snapshot()), lease.job, owner, seconds, others);
            var refused := Refused(old(db.Snapshot()), lease.job, owner) ||
                           (!work.FailsEarly? && Refused(second, lease.job, owner));
            && (row.state == Succeeded <==>
                  work.Produces? && reply.Answered? && !refused && !row.cancelRequested)
            && (row.state == Succeeded ==> row.result == Some(work.result) && row.error.None?)
            && (refused && reply.Answered? ==> row.state in {Failed, Cancelled} && row.error.None?)
            && (!refused && work.FailsEarly? ==> ReportedAs(row, work.early))
            && (!refused && work.FailsLate? ==> ReportedAs(row, work.late))
            && (!refused && work.Produces? && reply.Lost? ==> ReportedAs(row, WorkerFailed))
  {
    var goOn := Beat(db, lease.job, owner, "downloading", seconds, others.first);
    if !goOn {
      ending := Close(db, lease.job, owner, None, None, false, reply);
      if ending == RaisedOsError { ending := Crashed; }
      return;
    }
    if work.FailsEarly? {
      ending := Report(db, lease.job, owner, work.early, lastReply);
      return;
    }
    goOn := Beat(db, lease.job, owner, "extracting", seconds, others.second);
    if !goOn {
      ending := CloseOrReport(db, lease.job, owner, None, reply, others.third, lastReply);
      return;
    }
    if work.FailsLate? {
      ending := Report(db, lease.job, owner, work.late, lastReply);
    } else {
      ending := CloseOrReport(db, lease.job, owner, Some(work.result), reply, others.third, lastReply);
    }
  }
}
