/**
 * The PostgreSQL rows behind the durable job protocol and what one committed
 * transaction does to them. A `Store` is the committed content of the tables; the
 * clock is the value of `clock_timestamp()`, one value per transaction.
 */
module PlatformModel {
  import opened Prelude

  type Tenant = nat
  type DocumentId = nat
  type JobId = nat
  type Owner = string
  type Time = int

  datatype JobState = Queued | Running | Succeeded | Failed | Cancelled

  predicate Terminal(state: JobState) {
    state in {Succeeded, Failed, Cancelled}
  }

  datatype Job = Job(
    tenant: Tenant, document: DocumentId, key: string, request: string,
    state: JobState, stage: string, attempt: nat, maxAttempts: nat,
    owner: Option<Owner>, expires: Option<Time>, cancelRequested: bool,
    result: Option<string>, error: Option<string>,
    createdAt: Time, completedAt: Option<Time>)

  /** Kind and payload of one row of `dsvire_job_event`. */
  datatype Body =
    | EvQueued
    | EvLeased(attempt: nat)
    | EvProgress(stage: string)
    | EvCancelRequested
    | EvClosed(outcome: Outcome, code: Option<string>)

  /** The four kinds of event that `finish` writes. */
  datatype Outcome = Retrying | DidSucceed | DidFail | DidCancel

  datatype Event = Event(id: nat, tenant: Tenant, job: JobId, body: Body)

  datatype OutboxRow = OutboxRow(
    id: nat, job: JobId, eventId: nat, tenant: Tenant, body: Body,
    publishedAt: Option<Time>, lockOwner: Option<Owner>, lockExpires: Option<Time>, attempts: nat)

  /** `nextEvent` and `nextRow` are the two identity sequences; an aborted transaction uses numbers up. */
  datatype Store = Store(
    clock: Time,
    documents: map<(Tenant, string), DocumentId>,
    keys: map<(Tenant, string), JobId>,
    jobs: map<JobId, Job>,
    events: seq<Event>,
    outbox: seq<OutboxRow>,
    nextEvent: nat,
    nextRow: nat)

  const MAX_ATTEMPTS_LIMIT := 20
  const OUTBOX_LOCK_SECONDS := 30
  const PAGE_LIMIT := 500

  function Empty(clock: Time): Store {
    Store(clock, map[], map[], map[], [], [], 1, 1)
  }

  /** `_event`: one event row and one outbox row that names it. */
  function Emit(s: Store, tenant: Tenant, job: JobId, body: Body): Store {
    s.(events := s.events + [Event(s.nextEvent, tenant, job, body)],
       outbox := s.outbox + [OutboxRow(s.nextRow, job, s.nextEvent, tenant, body, None, None, None, 0)],
       nextEvent := s.nextEvent + 1,
       nextRow := s.nextRow + 1)
  }

  function WithJob(s: Store, j: JobId, row: Job, body: Body): Store {
    Emit(s.(jobs := s.jobs[j := row]), row.tenant, j, body)
  }

  // ---- submit ----

  datatype SubmitResult = Created(job: JobId) | Existing(job: JobId) | Conflict | CheckViolation

  predicate JobChecks(key: string, maxAttempts: nat) {
    8 <= |key| <= 200 && 1 <= maxAttempts <= MAX_ATTEMPTS_LIMIT
  }

  function NewJob(s: Store, tenant: Tenant, doc: DocumentId, key: string, request: string, maxAttempts: nat): Job {
    Job(tenant, doc, key, request, Queued, "queued", 0, maxAttempts, None, None, false, None, None, s.clock, None)
  }

  /** `newDoc` and `newJob` are the identifiers `gen_random_uuid()` would hand out. */
  function Submit(s: Store, tenant: Tenant, sha: string, key: string, request: string, maxAttempts: nat,
                  newDoc: DocumentId, newJob: JobId): (Store, SubmitResult)
  {
    if !JobChecks(key, maxAttempts) then (s, CheckViolation)
    else
      var doc := if (tenant, sha) in s.documents then s.documents[(tenant, sha)] else newDoc;
      if (tenant, key) !in s.keys then
        var filed := s.(documents := s.documents[(tenant, sha) := doc], keys := s.keys[(tenant, key) := newJob]);
        (WithJob(filed, newJob, NewJob(s, tenant, doc, key, request, maxAttempts), EvQueued), Created(newJob))
      else
        var bound := s.keys[(tenant, key)];
        if bound in s.jobs && s.jobs[bound].document == doc && s.jobs[bound].request == request
        then (s, Existing(bound))
        else (s, Conflict)
  }

  // ---- leases ----

  /** The WHERE clause of the candidate query in `lease_next`. */
  predicate Leasable(s: Store, j: JobId) {
    && j in s.jobs
    && var row := s.jobs[j];
       && (row.state == Queued || (row.state == Running && row.expires.Some? && row.expires.value < s.clock))
       && row.attempt < row.maxAttempts
       && !row.cancelRequested
  }

  function LeaseRow(row: Job, owner: Owner, until: Time): Job {
    row.(state := Running, stage := "starting", attempt := row.attempt + 1, owner := Some(owner),
         expires := Some(until))
  }

  function LeaseJob(s: Store, j: JobId, owner: Owner, seconds: int): Store
    requires Leasable(s, j)
  {
    WithJob(s, j, LeaseRow(s.jobs[j], owner, s.clock + seconds), EvLeased(s.jobs[j].attempt + 1))
  }

  /** ORDER BY created_at, job_id. */
  predicate QueuedBefore(s: Store, a: JobId, b: JobId)
    requires a in s.jobs && b in s.jobs
  {
    s.jobs[a].createdAt < s.jobs[b].createdAt || (s.jobs[a].createdAt == s.jobs[b].createdAt && a <= b)
  }

  predicate Holds(s: Store, j: JobId, owner: Owner) {
    j in s.jobs && s.jobs[j].state == Running && s.jobs[j].owner == Some(owner)
  }

  predicate LeaseLive(s: Store, j: JobId, owner: Owner) {
    Holds(s, j, owner) && s.jobs[j].expires.Some? && s.jobs[j].expires.value >= s.clock
  }

  function HeartbeatRow(row: Job, stage: string, until: Time): Job {
    row.(stage := stage, expires := Some(until))
  }

  function Heartbeat(s: Store, j: JobId, owner: Owner, stage: string, seconds: int): (Store, bool) {
    if !LeaseLive(s, j, owner) then (s, false)
    else
      (WithJob(s, j, HeartbeatRow(s.jobs[j], stage, s.clock + seconds), EvProgress(stage)), !s.jobs[j].cancelRequested)
  }

  /** An empty error code is falsy in the source and writes no payload. */
  function Code(error: Option<string>): Option<string> {
    if error == Some("") then None else error
  }

  function FinishOutcome(row: Job, result: Option<string>, retryable: bool): Outcome {
    if row.cancelRequested then DidCancel
    else if result.Some? then DidSucceed
    else if retryable && row.attempt < row.maxAttempts then Retrying
    else DidFail
  }

  function OutcomeState(outcome: Outcome): JobState {
    match outcome
    case Retrying => Queued
    case DidSucceed => Succeeded
    case DidFail => Failed
    case DidCancel => Cancelled
  }

  function OutcomeStage(outcome: Outcome): string {
    match outcome
    case Retrying => "retrying"
    case DidSucceed => "complete"
    case DidFail => "failed"
    case DidCancel => "cancelled"
  }

  function FinishRow(row: Job, outcome: Outcome, result: Option<string>, error: Option<string>, clock: Time): Job {
    var state := OutcomeState(outcome);
    row.(state := state, stage := OutcomeStage(outcome), result := result, error := error,
         owner := None, expires := None, completedAt := if Terminal(state) then Some(clock) else None)
  }

  /** The boolean is false when `finish` raises JobNotFound. */
  function Finish(s: Store, j: JobId, owner: Owner, result: Option<string>, error: Option<string>, retryable: bool)
    : (Store, bool)
  {
    if !Holds(s, j, owner) then (s, false)
    else
      var outcome := FinishOutcome(s.jobs[j], result, retryable);
      (WithJob(s, j, FinishRow(s.jobs[j], outcome, result, error, s.clock), EvClosed(outcome, Code(error))), true)
  }

  /** What a finish leaves in the row: finishing changes neither the attempt nor the cancel flag. */
  ghost predicate ClosedAs(row: Job, result: Option<string>, error: Option<string>, retryable: bool) {
    && (row.state == Cancelled <==> row.cancelRequested)
    && (row.state == Succeeded <==> result.Some? && !row.cancelRequested)
    && (row.state == Queued <==>
          result.None? && retryable && row.attempt < row.maxAttempts && !row.cancelRequested)
    && (row.state == Failed <==>
          result.None? && !(retryable && row.attempt < row.maxAttempts) && !row.cancelRequested)
    && row.result == result && row.error == error && row.owner.None? && row.expires.None?
    && row.stage == match row.state
                    case Queued => "retrying"
                    case Running => "starting"
                    case Succeeded => "complete"
                    case Failed => "failed"
                    case Cancelled => "cancelled"
  }

  function CancelRow(row: Job, clock: Time): Job {
    if row.state == Queued
    then row.(cancelRequested := true, state := Cancelled, stage := "cancelled", completedAt := Some(clock))
    else row.(cancelRequested := true)
  }

  function RequestCancel(s: Store, tenant: Tenant, j: JobId): (Store, bool) {
    if j !in s.jobs || s.jobs[j].tenant != tenant || s.jobs[j].state !in {Queued, Running} then (s, false)
    else
      (WithJob(s, j, CancelRow(s.jobs[j], s.clock), EvCancelRequested), true)
  }

  // ---- reading ----

  /** The events of one job, in event-id order. */
  function Log(events: seq<Event>, j: JobId): seq<Event> {
    Filter(events, (e: Event) => e.job == j)
  }

  function After(log: seq<Event>, cursor: nat): seq<Event> {
    Filter(log, (e: Event) => e.id > cursor)
  }

  /** The WHERE clause of `events`. */
  predicate Wanted(e: Event, tenant: Tenant, j: JobId, cursor: nat) {
    e.tenant == tenant && e.job == j && e.id > cursor
  }

  function WantedBy(tenant: Tenant, j: JobId, cursor: nat): Event -> bool { (e: Event) => Wanted(e, tenant, j, cursor) }

  /** The rows `events` returns, from a table held in event-id order. */
  function Page(s: Store, tenant: Tenant, j: JobId, cursor: nat, limit: int): seq<Event> {
    Take(Filter(s.events, WantedBy(tenant, j, cursor)), Clamp(limit))
  }

  ghost predicate InIdOrder(events: seq<Event>) {
    forall i, k | 0 <= i < k < |events| :: events[i].id < events[k].id
  }

  /** The wanted rows in id order, as many as the limit allows, and no wanted row left out before a returned one. */
  ghost predicate FirstWanted(events: seq<Event>, page: seq<Event>, tenant: Tenant, j: JobId, cursor: nat, limit: nat) {
    && |page| <= limit && InIdOrder(page)
    && (forall e | e in page :: e in events && Wanted(e, tenant, j, cursor))
    && (forall e | e in events && Wanted(e, tenant, j, cursor) && e !in page ::
          |page| == limit && forall p | p in page :: p.id < e.id)
  }

  /** Page sizes are held to 1..500. */
  function Clamp(limit: int): (n: nat)
    ensures 1 <= n <= 500 && (limit < 1 ==> n == 1) && (limit > 500 ==> n == 500) && (1 <= limit <= 500 ==> n == limit)
  {
    if limit < 1 then 1 else if limit > PAGE_LIMIT then PAGE_LIMIT else limit
  }

  // ---- outbox ----

  predicate Claimable(row: OutboxRow, clock: Time) {
    row.publishedAt.None? && (row.lockExpires.None? || row.lockExpires.value < clock)
  }

  function ClaimRow(row: OutboxRow, owner: Owner, clock: Time): OutboxRow {
    row.(lockOwner := Some(owner), lockExpires := Some(clock + OUTBOX_LOCK_SECONDS), attempts := row.attempts + 1)
  }

  /** The first `limit` claimable rows not locked by another transaction, in outbox order. */
  function ClaimIds(rows: seq<OutboxRow>, clock: Time, skip: set<nat>, limit: nat): seq<nat> {
    if rows == [] || limit == 0 then []
    else if Claimable(rows[0], clock) && rows[0].id !in skip
    then [rows[0].id] + ClaimIds(rows[1..], clock, skip, limit - 1)
    else ClaimIds(rows[1..], clock, skip, limit)
  }

  function ClaimAll(rows: seq<OutboxRow>, owner: Owner, clock: Time, ids: seq<nat>): seq<OutboxRow> {
    seq(|rows|, i requires 0 <= i < |rows| => if rows[i].id in ids then ClaimRow(rows[i], owner, clock) else rows[i])
  }

  function ClaimOutbox(s: Store, owner: Owner, limit: int, skip: set<nat>): (Store, seq<nat>) {
    var ids := ClaimIds(s.outbox, s.clock, skip, Clamp(limit));
    (s.(outbox := ClaimAll(s.outbox, owner, s.clock, ids)), ids)
  }

  predicate Acknowledgeable(row: OutboxRow, owner: Owner, id: nat) {
    row.id == id && row.lockOwner == Some(owner) && row.publishedAt.None?
  }

  function AckRow(row: OutboxRow, clock: Time): OutboxRow {
    row.(publishedAt := Some(clock), lockOwner := None, lockExpires := None)
  }

  function AckAll(rows: seq<OutboxRow>, owner: Owner, clock: Time, id: nat): seq<OutboxRow> {
    seq(|rows|, i requires 0 <= i < |rows| =>
      if Acknowledgeable(rows[i], owner, id) then AckRow(rows[i], clock) else rows[i])
  }

  function AcknowledgeOutbox(s: Store, owner: Owner, id: nat): (Store, bool) {
    (s.(outbox := AckAll(s.outbox, owner, s.clock, id)),
     exists i | 0 <= i < |s.outbox| :: Acknowledgeable(s.outbox[i], owner, id))
  }
}
