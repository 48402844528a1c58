/**
 * `PlatformDatabase` with its tables as fields that the methods update in place.
 *
 * Each method is one transaction and is proved equal to the step of `PlatformModel` with the same
 * name; loops scan the tables in the order in which PostgreSQL is asked for the rows.
 */
module PlatformDb {
  import opened Prelude
  import M = PlatformModel
  import R = PlatformRuns

  datatype Lease = Lease(job: M.JobId, tenant: M.Tenant, document: M.DocumentId, request: string,
                         attempt: nat, cancelRequested: bool)

  /** What a scan of the first `n` rows has found, when it stopped at the limit or at the end. */
  lemma ScanFindsFirst(events: seq<M.Event>, n: nat, page: seq<M.Event>, tenant: M.Tenant, j: M.JobId, cursor: nat,
                       limit: nat)
    requires n <= |events| && page == Filter(events[..n], M.WantedBy(tenant, j, cursor))
    requires |page| <= limit && (n == |events| || |page| == limit)
    ensures M.InIdOrder(events) ==> M.FirstWanted(events, page, tenant, j, cursor, limit)
  {
    var wanted := M.WantedBy(tenant, j, cursor);
    forall e
      ensures e in page <==> e in events[..n] && M.Wanted(e, tenant, j, cursor)
    {
      FilterMember(events[..n], wanted, e);
    }
    if M.InIdOrder(events) {
      FilterInOrder(events[..n], wanted);
      assert forall i | 0 <= i < n :: events[i] in events[..n];
      forall e, p | e in events && M.Wanted(e, tenant, j, cursor) && e !in page && p in page ensures p.id < e.id {
        var i :| 0 <= i < |events| && events[i] == e;
        var k :| 0 <= k < n && events[..n][k] == p;
        assert k < i;
      }
    }
  }

  lemma {:induction false} FilterInOrder(events: seq<M.Event>, keep: M.Event -> bool)
    requires M.InIdOrder(events)
    ensures M.InIdOrder(Filter(events, keep))
  {
    if events != [] {
      var front, last := events[..|events| - 1], events[|events| - 1];
      FilterInOrder(front, keep);
      forall e | e in Filter(front, keep) ensures e.id < last.id {
        FilterMember(front, keep, e);
        var k :| 0 <= k < |front| && front[k] == e;
      }
    }
  }

  class PlatformDatabase {
    var clock: M.Time
    var documents: map<(M.Tenant, string), M.DocumentId>
    var keys: map<(M.Tenant, string), M.JobId>
    var jobs: map<M.JobId, M.Job>
    var events: seq<M.Event>
    var outbox: seq<M.OutboxRow>
    var nextEvent: nat
    var nextRow: nat

    /** The committed content of the tables. */
    function Snapshot(): M.Store
      reads this
    {
      M.Store(clock, documents, keys, jobs, events, outbox, nextEvent, nextRow)
    }

    constructor (start: M.Time)
      ensures Snapshot() == M.Empty(start)
    {
      clock := start;
      documents, keys, jobs := map[], map[], map[];
      events, outbox := [], [];
      nextEvent, nextRow := 1, 1;
    }

    method WriteEvent(tenant: M.Tenant, job: M.JobId, body: M.Body)
      modifies this
      ensures Snapshot() == M.Emit(old(Snapshot()), tenant, job, body)
      ensures var event := M.Event(old(nextEvent), tenant, job, body);
              && events == old(events) + [event] && jobs == old(jobs) && keys == old(keys)
              && documents == old(documents) && |outbox| == |old(outbox)| + 1 && old(outbox) <= outbox
              && var row := outbox[|outbox| - 1];
                 row.eventId == event.id && row.job == job && row.tenant == tenant && row.body == body &&
                 row.publishedAt.None? && row.lockExpires.None? && row.attempts == 0
    {
      var eventId := nextEvent;
      events := events + [M.Event(eventId, tenant, job, body)];
      nextEvent := nextEvent + 1;
      outbox := outbox + [M.OutboxRow(nextRow, job, eventId, tenant, body, None, None, None, 0)];
      nextRow := nextRow + 1;
    }

    /** A conflict or a failed CHECK raises inside the transaction, which rolls the document row back. */
    method Submit(tenant: M.Tenant, sha: string, key: string, request: string, maxAttempts: nat,
                  newDoc: M.DocumentId, newJob: M.JobId) returns (r: M.SubmitResult)
      modifies this
      ensures (Snapshot(), r) == M.Submit(old(Snapshot()), tenant, sha, key, request, maxAttempts, newDoc, newJob)
      ensures r.CheckViolation? <==> !(8 <= |key| <= 200 && 1 <= maxAttempts <= 20)
      ensures r.Created? <==> !r.CheckViolation? && (tenant, key) !in old(keys)
      ensures !r.Created? ==> Snapshot() == old(Snapshot())
      ensures r.Created? ==>
                r.job == newJob && newJob in jobs && jobs == old(jobs)[newJob := jobs[newJob]] &&
                var row := jobs[newJob];
                && row.state == M.Queued && row.attempt == 0 && row.maxAttempts == maxAttempts && row.owner.None?
                && row.tenant == tenant && row.key == key && row.request == request && row.createdAt == clock
                && !row.cancelRequested && row.result.None? && row.error.None?
                && (tenant, sha) in documents && row.document == documents[(tenant, sha)]
                && ((tenant, sha) in old(documents) ==> documents == old(documents))
                && keys == old(keys)[(tenant, key) := newJob]
                && events == old(events) + [M.Event(old(nextEvent), tenant, newJob, M.EvQueued)]
    {
      if !M.JobChecks(key, maxAttempts) {
        return M.CheckViolation;
      }
      var doc := newDoc;
      if (tenant, sha) in documents {
        doc := documents[(tenant, sha)];
      }
      if (tenant, key) !in keys {
        documents := documents[(tenant, sha) := doc];
        keys := keys[(tenant, key) := newJob];
        jobs := jobs[newJob := M.NewJob(Snapshot(), tenant, doc, key, request, maxAttempts)];
        WriteEvent(tenant, newJob, M.EvQueued);
        return M.Created(newJob);
      }
      var existing := keys[(tenant, key)];
      if existing in jobs && jobs[existing].document == doc && jobs[existing].request == request {
        return M.Existing(existing);
      }
      return M.Conflict;
    }

    /**
     * `skip` holds the jobs whose rows other transactions have locked. The lease goes to the
     * least leasable job by creation time, then id, among the rest; none only if there is none.
     * A job that is leased was queued, or running with a lease that had run out.
     */
    method LeaseNext(owner: M.Owner, seconds: int, skip: set<M.JobId>) returns (lease: Option<Lease>)
      modifies this
      ensures lease.None? ==> Snapshot() == old(Snapshot())
      ensures lease.None? ==> forall j | j !in skip :: !M.Leasable(old(Snapshot()), j)
      ensures lease.Some? ==> M.Leasable(old(Snapshot()), lease.value.job) && lease.value.job !in skip
      ensures lease.Some? ==> forall j | M.Leasable(old(Snapshot()), j) && j !in skip ::
                M.QueuedBefore(old(Snapshot()), lease.value.job, j)
      ensures lease.Some? ==> Snapshot() == M.LeaseJob(old(Snapshot()), lease.value.job, owner, seconds)
      ensures lease.None? ==> forall j | j in jobs && j !in skip ::
                || M.Terminal(jobs[j].state) || jobs[j].attempt >= jobs[j].maxAttempts || jobs[j].cancelRequested
                || (jobs[j].state == M.Running && (jobs[j].expires.None? || clock <= jobs[j].expires.value))
      ensures lease.Some? ==>
                lease.value.job in old(jobs) &&
                var row := old(jobs)[lease.value.job];
                && row.state in {M.Queued, M.Running} && row.attempt < row.maxAttempts && !row.cancelRequested
                && (row.state == M.Running ==> row.expires.Some? && row.expires.value < old(clock))
      ensures lease.Some? ==> forall j | j in old(jobs) && j !in skip && M.Leasable(old(Snapshot()), j) ::
                var row, other := old(jobs)[lease.value.job], old(jobs)[j];
                row.createdAt < other.createdAt || (row.createdAt == other.createdAt && lease.value.job <= j)
      ensures lease.Some? ==>
                var before := old(jobs)[lease.value.job];
                jobs == old(jobs)[lease.value.job := before.(
                  state := M.Running, stage := "starting", attempt := before.attempt + 1, owner := Some(owner),
                  expires := Some(clock + seconds))] &&
                events == old(events) +
                  [M.Event(old(nextEvent), before.tenant, lease.value.job, M.EvLeased(before.attempt + 1))]
      ensures lease.Some? ==> lease.value.attempt == old(jobs)[lease.value.job].attempt + 1
                              && lease.value.request == old(jobs)[lease.value.job].request
                              && lease.value.document == old(jobs)[lease.value.job].document
                              && lease.value.tenant == old(jobs)[lease.value.job].tenant
                              && !lease.value.cancelRequested
    {
      var s := Snapshot();
      var todo := jobs.Keys;
      var best: Option<M.JobId> := None;
      while todo != {}
        invariant todo <= jobs.Keys && s == Snapshot() == old(Snapshot())
        invariant best.Some? ==> M.Leasable(s, best.value) && best.value !in skip
        invariant best.None? ==> forall j | M.Leasable(s, j) && j !in skip :: j in todo
        invariant best.Some? ==> forall j | M.Leasable(s, j) && j !in skip && j !in todo ::
                    M.QueuedBefore(s, best.value, j)
        decreases todo
      {
        var j :| j in todo;
        todo := todo - {j};
        if M.Leasable(s, j) && j !in skip && (best.None? || M.QueuedBefore(s, j, best.value)) {
          best := Some(j);
        }
      }
      if best.None? {
        return None;
      }
      var j := best.value;
      var row := M.LeaseRow(jobs[j], owner, clock + seconds);
      jobs := jobs[j := row];
      WriteEvent(row.tenant, j, M.EvLeased(row.attempt));
      return Some(Lease(j, row.tenant, row.document, row.request, row.attempt, row.cancelRequested));
    }

    method Heartbeat(job: M.JobId, owner: M.Owner, stage: string, seconds: int) returns (goOn: bool)
      modifies this
      ensures (Snapshot(), goOn) == M.Heartbeat(old(Snapshot()), job, owner, stage, seconds)
      ensures Snapshot() != old(Snapshot()) <==>
              job in old(jobs) && old(jobs)[job].state == M.Running && old(jobs)[job].owner == Some(owner) &&
              old(jobs)[job].expires.Some? && old(clock) <= old(jobs)[job].expires.value
      ensures Snapshot() == old(Snapshot()) ==> !goOn
      ensures Snapshot() != old(Snapshot()) ==>
              && jobs == old(jobs)[job := old(jobs)[job].(stage := stage, expires := Some(clock + seconds))]
              && goOn == !old(jobs)[job].cancelRequested
              && events == old(events) + [M.Event(old(nextEvent), old(jobs)[job].tenant, job, M.EvProgress(stage))]
    {
      if !M.LeaseLive(Snapshot(), job, owner) {
        return false;
      }
      jobs := jobs[job := jobs[job].(stage := stage, expires := Some(clock + seconds))];
      WriteEvent(jobs[job].tenant, job, M.EvProgress(stage));
      return !jobs[job].cancelRequested;
    }

    method Finish(job: M.JobId, owner: M.Owner, result: Option<string>, error: Option<string>, retryable: bool)
      returns (found: bool)
      modifies this
      ensures (Snapshot(), found) == M.Finish(old(Snapshot()), job, owner, result, error, retryable)
      ensures found <==> job in old(jobs) && old(jobs)[job].state == M.Running && old(jobs)[job].owner == Some(owner)
      ensures !found ==> Snapshot() == old(Snapshot())
      ensures found ==>
                job in jobs && jobs == old(jobs)[job := jobs[job]] &&
                var before, after := old(jobs)[job], jobs[job];
                && M.ClosedAs(after, result, error, retryable)
                && after.attempt == before.attempt && after.cancelRequested == before.cancelRequested
                && after.completedAt == (if after.state == M.Queued then None else Some(clock))
                && |events| == |old(events)| + 1 && old(events) <= events
                && var event := events[|events| - 1];
                   event.job == job && event.tenant == before.tenant && event.body.EvClosed? &&
                   M.OutcomeState(event.body.outcome) == after.state &&
                   event.body.code == if error == Some("") then None else error
    {
      if !M.Holds(Snapshot(), job, owner) {
        return false;
      }
      var current := jobs[job];
      var outcome := M.DidFail;
      if current.cancelRequested {
        outcome := M.DidCancel;
      } else if result.Some? {
        outcome := M.DidSucceed;
      } else if retryable && current.attempt < current.maxAttempts {
        outcome := M.Retrying;
      }
      jobs := jobs[job := M.FinishRow(current, outcome, result, error, clock)];
      WriteEvent(current.tenant, job, M.EvClosed(outcome, M.Code(error)));
      return true;
    }

    method RequestCancel(tenant: M.Tenant, job: M.JobId) returns (accepted: bool)
      modifies this
      ensures (Snapshot(), accepted) == M.RequestCancel(old(Snapshot()), tenant, job)
      ensures accepted <==>
              job in old(jobs) && old(jobs)[job].tenant == tenant && old(jobs)[job].state in {M.Queued, M.Running}
      ensures !accepted ==> Snapshot() == old(Snapshot())
      ensures accepted ==>
                var flagged := old(jobs)[job].(cancelRequested := true);
                jobs == old(jobs)[job :=
                  if flagged.state == M.Running then flagged
                  else flagged.(state := M.Cancelled, stage := "cancelled", completedAt := Some(clock))] &&
                events == old(events) + [M.Event(old(nextEvent), tenant, job, M.EvCancelRequested)]
    {
      if job !in jobs || jobs[job].tenant != tenant || jobs[job].state !in {M.Queued, M.Running} {
        return false;
      }
      jobs := jobs[job := M.CancelRow(jobs[job], clock)];
      WriteEvent(tenant, job, M.EvCancelRequested);
      return true;
    }

    /**
     * The scan runs in event-id order and stops at the limit. Every reachable table is in that
     * order (`PlatformRuns.EventsOk`).
     */
    method Events(tenant: M.Tenant, job: M.JobId, cursor: nat, limit: int) returns (page: seq<M.Event>)
      ensures page == M.Page(Snapshot(), tenant, job, cursor, limit)
      ensures M.InIdOrder(events) ==> M.FirstWanted(events, page, tenant, job, cursor, M.Clamp(limit))
    {
      page := [];
      var i := 0;
      ghost var wanted := M.WantedBy(tenant, job, cursor);
      while i < |events| && |page| < M.Clamp(limit)
        invariant 0 <= i <= |events| && |page| <= M.Clamp(limit)
        invariant page == Filter(events[..i], wanted)
      {
        assert events[..i + 1] == events[..i] + [events[i]];
        FilterAppend(events[..i], events[i], wanted);
        if M.Wanted(events[i], tenant, job, cursor) { page := page + [events[i]]; }
        i := i + 1;
      }
      FilterConcat(events[..i], events[i..], wanted);
      assert events[..i] + events[i..] == events;
      assert i == |events| ==> events[i..] == [];
      ScanFindsFirst(events, i, page, tenant, job, cursor, M.Clamp(limit));
    }

    method ClaimOutbox(owner: M.Owner, limit: int, skip: set<nat>) returns (ids: seq<nat>)
      modifies this
      ensures (Snapshot(), ids) == M.ClaimOutbox(old(Snapshot()), owner, limit, skip)
      ensures |outbox| == |old(outbox)| && forall i | 0 <= i < |outbox| ::
                var before, after := old(outbox)[i], outbox[i];
                if before.id !in ids then after == before
                else after == before.(lockOwner := Some(owner), lockExpires := Some(clock + 30),
                                      attempts := before.attempts + 1)
    {
      ids := [];
      var room := M.Clamp(limit);
      var i := 0;
      while i < |outbox|
        invariant 0 <= i <= |outbox| && Snapshot() == old(Snapshot())
        invariant |ids| + room == M.Clamp(limit)
        invariant ids + M.ClaimIds(outbox[i..], clock, skip, room) == M.ClaimIds(outbox, clock, skip, M.Clamp(limit))
      {
        if room > 0 && M.Claimable(outbox[i], clock) && outbox[i].id !in skip {
          ids := ids + [outbox[i].id];
          room := room - 1;
        }
        i := i + 1;
      }
      assert outbox[i..] == [] && ids + [] == ids;
      outbox := M.ClaimAll(outbox, owner, clock, ids);
    }

    method AcknowledgeOutbox(owner: M.Owner, id: nat) returns (updated: bool)
      modifies this
      ensures (Snapshot(), updated) == M.AcknowledgeOutbox(old(Snapshot()), owner, id)
      ensures |outbox| == |old(outbox)| && forall i | 0 <= i < |outbox| ::
                var before, after := old(outbox)[i], outbox[i];
                if before.id == id && before.lockOwner == Some(owner) && before.publishedAt.None?
                then after.publishedAt == Some(clock) && after.lockOwner.None? && after.lockExpires.None?
                else after == before
      ensures updated ==> exists i | 0 <= i < |outbox| ::
                old(outbox)[i].id == id && old(outbox)[i].lockOwner == Some(owner) && old(outbox)[i].publishedAt.None?
      ensures !updated ==> outbox == old(outbox)
    {
      updated := exists i | 0 <= i < |outbox| :: M.Acknowledgeable(outbox[i], owner, id);
      outbox := M.AckAll(outbox, owner, clock, id);
    }

    /** Transactions of other clients, and time, between two calls of this one. */
    method Others(actions: seq<R.Action>)
      modifies this
      ensures Snapshot() == R.Run(old(Snapshot()), actions)
    {
      var s := R.Run(Snapshot(), actions);
      clock, documents, keys, jobs := s.clock, s.documents, s.keys, s.jobs;
      events, outbox, nextEvent, nextRow := s.events, s.outbox, s.nextEvent, s.nextRow;
    }
  }
}
