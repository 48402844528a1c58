/** Every run of the job protocol, and the invariant it keeps. */
module PlatformRuns {
  // Any number of workers, submitters, cancellers and dispatchers, one committed transaction at
  // a time, with the clock moving between them. A crashed worker or dispatcher is one that
  // simply takes no further step.

  import opened Prelude
  import opened PlatformModel

  datatype Action =
    | Tick(elapsed: nat)
    | Abort(eventNumbers: nat, rowNumbers: nat)
    | DoSubmit(tenant: Tenant, sha: string, key: string, request: string, maxAttempts: nat,
               newDoc: DocumentId, newJob: JobId)
    | DoLease(job: JobId, owner: Owner, seconds: int)
    | DoHeartbeat(job: JobId, owner: Owner, stage: string, seconds: int)
    | DoFinish(job: JobId, owner: Owner, result: Option<string>, error: Option<string>, retryable: bool)
    | DoCancel(tenant: Tenant, job: JobId)
    | DoClaim(owner: Owner, limit: int, skip: set<nat>)
    | DoAcknowledge(owner: Owner, row: nat)

  /** Identifiers that `gen_random_uuid()` may hand out. */
  predicate Fresh(s: Store, doc: DocumentId, job: JobId) { job !in s.jobs && doc !in s.documents.Values }

  /**
   * SKIP LOCKED lets `lease_next` pass over any row another transaction holds, so every
   * leasable job may be the one it takes. A fresh UUID is never one already in use.
   */
  function Step(s: Store, a: Action): Store {
    match a
    case Tick(d) => s.(clock := s.clock + d)
    case Abort(e, r) => s.(nextEvent := s.nextEvent + e, nextRow := s.nextRow + r)
    case DoSubmit(t, sha, key, request, max, doc, job) =>
      if !Fresh(s, doc, job) then s else Submit(s, t, sha, key, request, max, doc, job).0
    case DoLease(j, owner, seconds) => if Leasable(s, j) then LeaseJob(s, j, owner, seconds) else s
    case DoHeartbeat(j, owner, stage, seconds) => Heartbeat(s, j, owner, stage, seconds).0
    case DoFinish(j, owner, result, error, retryable) => Finish(s, j, owner, result, error, retryable).0
    case DoCancel(tenant, j) => RequestCancel(s, tenant, j).0
    case DoClaim(owner, limit, skip) => ClaimOutbox(s, owner, limit, skip).0
    case DoAcknowledge(owner, row) => AcknowledgeOutbox(s, owner, row).0
  }

  function Run(s: Store, actions: seq<Action>): Store {
    if actions == [] then s else Step(Run(s, actions[..|actions| - 1]), actions[|actions| - 1])
  }

  lemma {:induction false} RunConcat(s: Store, first: seq<Action>, second: seq<Action>)
    ensures Run(s, first + second) == Run(Run(s, first), second)
  {
    if second == [] {
      assert first + second == first;
    } else {
      var front := second[..|second| - 1];
      RunConcat(s, first, front);
      assert (first + second)[..|first + second| - 1] == first + front;
    }
  }

  // ---- what a job's event log says about its row ----

  datatype View = View(state: JobState, stage: string, attempt: nat, cancelRequested: bool, error: Option<string>)

  datatype Trace = NoJob | At(view: View) | Broken

  function Advance(t: Trace, body: Body): Trace {
    match body
    case EvQueued =>
      if t.NoJob? then At(View(Queued, "queued", 0, false, None)) else Broken
    case EvLeased(n) =>
      if t.At? && t.view.state in {Queued, Running} && !t.view.cancelRequested && n == t.view.attempt + 1
      then At(t.view.(state := Running, stage := "starting", attempt := n)) else Broken
    case EvProgress(stage) =>
      if t.At? && t.view.state == Running then At(t.view.(stage := stage)) else Broken
    case EvCancelRequested =>
      if t.At? && t.view.state == Queued
      then At(t.view.(state := Cancelled, stage := "cancelled", cancelRequested := true))
      else if t.At? && t.view.state == Running then At(t.view.(cancelRequested := true))
      else Broken
    case EvClosed(outcome, code) =>
      if t.At? && t.view.state == Running && (outcome == DidCancel <==> t.view.cancelRequested)
      then At(t.view.(state := OutcomeState(outcome), stage := OutcomeStage(outcome), error := code))
      else Broken
  }

  /** The fold of an event log. */
  function Replay(log: seq<Event>): Trace {
    if log == [] then NoJob else Advance(Replay(log[..|log| - 1]), log[|log| - 1].body)
  }

  function ViewOf(row: Job): View {
    View(row.state, row.stage, row.attempt, row.cancelRequested, Code(row.error))
  }

  function RowTrace(s: Store, j: JobId): Trace {
    if j in s.jobs then At(ViewOf(s.jobs[j])) else NoJob
  }

  // ---- the invariant ----

  ghost predicate RowOk(row: Job) {
    && JobChecks(row.key, row.maxAttempts)
    && row.attempt <= row.maxAttempts
    && (row.state == Running <==> row.owner.Some?)
    && (row.state == Running <==> row.expires.Some?)
    && (row.state == Running ==> row.attempt >= 1)
    && (row.state == Queued ==> row.attempt < row.maxAttempts && !row.cancelRequested)
    && (Terminal(row.state) <==> row.completedAt.Some?)
    && (Terminal(row.state) ==> (row.state == Cancelled <==> row.cancelRequested))
  }

  ghost predicate RowsOk(s: Store) { forall j | j in s.jobs :: RowOk(s.jobs[j]) }

  ghost predicate LogsOk(s: Store) { forall j :: Replay(Log(s.events, j)) == RowTrace(s, j) }

  ghost predicate EventsOk(s: Store) {
    && (forall i | 0 <= i < |s.events| :: s.events[i].id < s.nextEvent)
    && (forall i, k | 0 <= i < k < |s.events| :: s.events[i].id < s.events[k].id)
    && (forall i | 0 <= i < |s.events| ::
          s.events[i].job in s.jobs && s.events[i].tenant == s.jobs[s.events[i].job].tenant)
  }

  /** Event number `i` and outbox row number `i` were written by the same transaction. */
  ghost predicate Announces(row: OutboxRow, e: Event) {
    row.eventId == e.id && row.job == e.job && row.tenant == e.tenant && row.body == e.body
  }

  ghost predicate OutboxOk(s: Store) {
    && |s.outbox| == |s.events|
    && (forall i | 0 <= i < |s.outbox| :: Announces(s.outbox[i], s.events[i]))
    && (forall i | 0 <= i < |s.outbox| :: s.outbox[i].id < s.nextRow)
    && (forall i, k | 0 <= i < k < |s.outbox| :: s.outbox[i].id < s.outbox[k].id)
  }

  ghost predicate KeysOk(s: Store) {
    && (forall j | j in s.jobs ::
          (s.jobs[j].tenant, s.jobs[j].key) in s.keys &&
          s.keys[(s.jobs[j].tenant, s.jobs[j].key)] == j)
    && (forall k | k in s.keys :: s.keys[k] in s.jobs && (s.jobs[s.keys[k]].tenant, s.jobs[s.keys[k]].key) == k)
  }

  ghost predicate Inv(s: Store) {
    RowsOk(s) && LogsOk(s) && EventsOk(s) && OutboxOk(s) && KeysOk(s)
  }

  lemma WriteKeepsLogs(s: Store, j: JobId, row: Job, body: Body)
    requires LogsOk(s)
    requires Advance(RowTrace(s, j), body) == At(ViewOf(row))
    ensures LogsOk(WithJob(s, j, row, body))
  {
    var s' := WithJob(s, j, row, body);
    var e := Event(s.nextEvent, row.tenant, j, body);
    forall k ensures Replay(Log(s'.events, k)) == RowTrace(s', k) {
      assert Replay(Log(s.events, k)) == RowTrace(s, k);
      if k == j {
        assert Log(s'.events, k)[..|Log(s'.events, k)| - 1] == Log(s.events, k);
      } else {
        assert Log(s'.events, k) == Log(s.events, k);
      }
    }
  }

  lemma WriteKeepsTables(s: Store, j: JobId, row: Job, body: Body)
    requires RowsOk(s) && EventsOk(s) && OutboxOk(s) && RowOk(row)
    requires j in s.jobs ==> row.tenant == s.jobs[j].tenant
    ensures var s' := WithJob(s, j, row, body); RowsOk(s') && EventsOk(s') && OutboxOk(s')
  {
  }

  /** A row write plus its event keep the invariant when the event explains the write. */
  lemma WriteKeepsInv(s: Store, j: JobId, row: Job, body: Body, s': Store)
    requires Inv(s) && j in s.jobs && RowOk(row) && s' == WithJob(s, j, row, body)
    requires row.tenant == s.jobs[j].tenant && row.key == s.jobs[j].key
    requires Advance(RowTrace(s, j), body) == At(ViewOf(row))
    ensures Inv(s')
  {
    WriteKeepsLogs(s, j, row, body);
    WriteKeepsTables(s, j, row, body);
  }

  // The event each operation writes explains the row it writes.

  lemma ExplainedCancel(row: Job, clock: Time)
    requires RowOk(row) && row.state in {Queued, Running}
    ensures RowOk(CancelRow(row, clock))
    ensures Advance(At(ViewOf(row)), EvCancelRequested) == At(ViewOf(CancelRow(row, clock)))
  {
  }

  lemma SubmitKeepsInv(s: Store, t: Tenant, sha: string, key: string, request: string, max: nat,
                       newDoc: DocumentId, newJob: JobId, s': Store)
    requires Inv(s) && newJob !in s.jobs
    requires s' == Submit(s, t, sha, key, request, max, newDoc, newJob).0
    ensures Inv(s')
  {
    if JobChecks(key, max) && (t, key) !in s.keys {
      var doc := if (t, sha) in s.documents then s.documents[(t, sha)] else newDoc;
      var filed := s.(documents := s.documents[(t, sha) := doc], keys := s.keys[(t, key) := newJob]);
      InsertKeepsInv(s, filed, newJob, NewJob(s, t, doc, key, request, max), s');
    }
  }

  lemma InsertKeepsInv(s: Store, filed: Store, j: JobId, row: Job, s': Store)
    requires Inv(s) && j !in s.jobs && RowOk(row) && ViewOf(row) == View(Queued, "queued", 0, false, None)
    requires (row.tenant, row.key) !in s.keys
    requires filed == s.(documents := filed.documents, keys := s.keys[(row.tenant, row.key) := j])
    requires s' == WithJob(filed, j, row, EvQueued)
    ensures Inv(s')
  {
    assert forall k :: RowTrace(filed, k) == RowTrace(s, k);
    WriteKeepsLogs(filed, j, row, EvQueued);
    WriteKeepsTables(filed, j, row, EvQueued);
  }

  lemma OutboxWriteKeepsInv(s: Store, rows: seq<OutboxRow>, s': Store)
    requires Inv(s) && |rows| == |s.outbox| && s' == s.(outbox := rows)
    requires forall i | 0 <= i < |rows| :: rows[i].id == s.outbox[i].id && Announces(rows[i], s.events[i])
    ensures Inv(s')
  {
    assert forall j :: RowTrace(s', j) == RowTrace(s, j);
  }

  lemma LeaseKeepsInv(s: Store, j: JobId, owner: Owner, seconds: int, s': Store)
    requires Inv(s) && Leasable(s, j) && s' == LeaseJob(s, j, owner, seconds)
    ensures Inv(s')
  {
    WriteKeepsInv(s, j, LeaseRow(s.jobs[j], owner, s.clock + seconds), EvLeased(s.jobs[j].attempt + 1), s');
  }

  lemma HeartbeatKeepsInv(s: Store, j: JobId, owner: Owner, stage: string, seconds: int, s': Store)
    requires Inv(s) && s' == Heartbeat(s, j, owner, stage, seconds).0
    ensures Inv(s')
  {
    if LeaseLive(s, j, owner) {
      WriteKeepsInv(s, j, HeartbeatRow(s.jobs[j], stage, s.clock + seconds), EvProgress(stage), s');
    }
  }

  lemma FinishKeepsInv(s: Store, j: JobId, owner: Owner, result: Option<string>, error: Option<string>,
                       retryable: bool, s': Store)
    requires Inv(s) && s' == Finish(s, j, owner, result, error, retryable).0
    ensures Inv(s')
  {
    if Holds(s, j, owner) {
      var outcome := FinishOutcome(s.jobs[j], result, retryable);
      WriteKeepsInv(s, j, FinishRow(s.jobs[j], outcome, result, error, s.clock), EvClosed(outcome, Code(error)), s');
    }
  }

  lemma CancelKeepsInv(s: Store, tenant: Tenant, j: JobId, s': Store)
    requires Inv(s) && s' == RequestCancel(s, tenant, j).0
    ensures Inv(s')
  {
    if RequestCancel(s, tenant, j).1 {
      ExplainedCancel(s.jobs[j], s.clock);
      WriteKeepsInv(s, j, CancelRow(s.jobs[j], s.clock), EvCancelRequested, s');
    }
  }

  lemma ClockKeepsInv(s: Store, s': Store)
    requires Inv(s) && s' == s.(clock := s'.clock, nextEvent := s'.nextEvent, nextRow := s'.nextRow)
    requires s.nextEvent <= s'.nextEvent && s.nextRow <= s'.nextRow
    ensures Inv(s')
  {
    assert forall j :: RowTrace(s', j) == RowTrace(s, j);
  }

  lemma StepKeepsInv(s: Store, a: Action)
    requires Inv(s)
    ensures Inv(Step(s, a))
  {
    var s' := Step(s, a);
    match a
    case Tick(_) => ClockKeepsInv(s, s');
    case Abort(_, _) => ClockKeepsInv(s, s');
    case DoSubmit(t, sha, key, request, max, doc, job) =>
      if Fresh(s, doc, job) { SubmitKeepsInv(s, t, sha, key, request, max, doc, job, s'); }
    case DoLease(j, owner, seconds) => if Leasable(s, j) { LeaseKeepsInv(s, j, owner, seconds, s'); }
    case DoHeartbeat(j, owner, stage, seconds) => HeartbeatKeepsInv(s, j, owner, stage, seconds, s');
    case DoFinish(j, owner, result, error, retryable) => FinishKeepsInv(s, j, owner, result, error, retryable, s');
    case DoCancel(tenant, j) => CancelKeepsInv(s, tenant, j, s');
    case DoClaim(owner, limit, skip) => OutboxWriteKeepsInv(s, s'.outbox, s');
    case DoAcknowledge(owner, row) => OutboxWriteKeepsInv(s, s'.outbox, s');
  }

  /** Every reachable state satisfies the invariant. */
  lemma {:induction false} RunsKeepInv(start: Time, actions: seq<Action>)
    ensures Inv(Run(Empty(start), actions))
  {
    if actions == [] {
      assert forall j :: Log([], j) == [];
    } else {
      RunsKeepInv(start, actions[..|actions| - 1]);
      StepKeepsInv(Run(Empty(start), actions[..|actions| - 1]), actions[|actions| - 1]);
    }
  }

  /**
   * In every reachable state the state, stage, attempt, cancel flag and error code of every
   * job row are the fold of its event log, and a log without a row is empty.
   */
  lemma LogDeterminesRow(start: Time, actions: seq<Action>, j: JobId)
    ensures var s := Run(Empty(start), actions);
            Replay(Log(s.events, j)) == if j in s.jobs then At(ViewOf(s.jobs[j])) else NoJob
  {
    RunsKeepInv(start, actions);
  }
}
