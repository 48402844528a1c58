/** Who may act on a job, and until when: a live lease excludes every other worker. */
module LeaseExclusion {
  import opened Prelude
  import opened PlatformModel
  import opened PlatformRuns
  import opened PlatformLeases

  // ---- a live lease ----

  /** The calls by which a holder moves or ends its own lease. */
  predicate MovesLease(a: Action, j: JobId, owner: Owner) {
    (a.DoHeartbeat? && a.job == j && a.owner == owner) || ClosesFor(a, j, owner)
  }

  /** `owner` works on the job at this attempt, with a lease until `until`. */
  predicate Leased(s: Store, j: JobId, owner: Owner, attempt: nat, until: Time) {
    && j in s.jobs && s.jobs[j].state == Running && s.jobs[j].owner == Some(owner)
    && s.jobs[j].attempt == attempt && s.jobs[j].expires == Some(until)
  }

  lemma ClockMovesOn(s: Store, a: Action)
    ensures s.clock <= Step(s, a).clock
  {
  }

  lemma LiveStep(s: Store, a: Action, j: JobId, owner: Owner, attempt: nat, until: Time)
    requires Leased(s, j, owner, attempt, until) && s.clock <= until && !MovesLease(a, j, owner)
    ensures Leased(Step(s, a), j, owner, attempt, until)
  {
  }

  /**
   * Whatever other clients do, nobody else gets the job, and the attempt does not change,
   * before the clock has passed the end of the lease.
   */
  lemma {:induction false} LiveLeaseExcludes(s: Store, j: JobId, owner: Owner, attempt: nat, until: Time,
                                             later: seq<Action>)
    requires Leased(s, j, owner, attempt, until)
    requires forall a | a in later :: !MovesLease(a, j, owner)
    requires Run(s, later).clock <= until
    ensures Leased(Run(s, later), j, owner, attempt, until)
  {
    if later != [] {
      var front, last := later[..|later| - 1], later[|later| - 1];
      ClockMovesOn(Run(s, front), last);
      LiveLeaseExcludes(s, j, owner, attempt, until, front);
      LiveStep(Run(s, front), last, j, owner, attempt, until);
    }
  }

  predicate WroteEvent(s: Store, a: Action) { |Step(s, a).events| > |s.events| }

  /** A lease, or a heartbeat that was accepted, keeps the job for `seconds` from then on. */
  lemma GrantLasts(s: Store, j: JobId, owner: Owner, stage: string, seconds: int, a: Action, later: seq<Action>)
    requires a == DoLease(j, owner, seconds) || a == DoHeartbeat(j, owner, stage, seconds)
    requires WroteEvent(s, a) && forall b | b in later :: !MovesLease(b, j, owner)
    requires Run(Step(s, a), later).clock <= s.clock + seconds
    ensures Holds(Run(Step(s, a), later), j, owner)
    ensures Run(Step(s, a), later).jobs[j].attempt == Step(s, a).jobs[j].attempt
  {
    var s' := Step(s, a);
    LiveLeaseExcludes(s', j, owner, s'.jobs[j].attempt, s.clock + seconds, later);
  }

  /** The lease that `j` has, if any, has not run out. */
  predicate InTime(s: Store, j: JobId) {
    j in s.jobs && s.jobs[j].expires.Some? ==> s.clock <= s.jobs[j].expires.value
  }

  lemma RenewedStep(s: Store, a: Action, j: JobId, owner: Owner)
    requires Holds(s, j, owner) && s.jobs[j].expires.Some? && InTime(s, j) && !ClosesFor(a, j, owner)
    ensures Holds(Step(s, a), j, owner) && Step(s, a).jobs[j].expires.Some?
    ensures Step(s, a).jobs[j].attempt == s.jobs[j].attempt
  {
  }

  /** A worker whose heartbeats keep its lease alive keeps the job, at the same attempt, until it finishes. */
  lemma {:induction false} RenewedLeaseExcludes(s: Store, j: JobId, owner: Owner, later: seq<Action>)
    requires Holds(s, j, owner) && s.jobs[j].expires.Some?
    requires forall a | a in later :: !ClosesFor(a, j, owner)
    requires forall n | 0 <= n < |later| :: InTime(Run(s, later[..n]), j)
    ensures Holds(Run(s, later), j, owner) && Run(s, later).jobs[j].expires.Some?
    ensures Run(s, later).jobs[j].attempt == s.jobs[j].attempt
  {
    if later != [] {
      var front := later[..|later| - 1];
      forall n | 0 <= n < |front| ensures InTime(Run(s, front[..n]), j) { assert front[..n] == later[..n]; }
      RenewedLeaseExcludes(s, j, owner, front);
      RenewedStep(Run(s, front), later[|later| - 1], j, owner);
    }
  }

  /** After `d` more seconds another worker gets the job exactly when the lease is over and a retry is allowed. */
  lemma TakeoverExactly(s: Store, j: JobId, owner: Owner, attempt: nat, until: Time, other: Owner, d: nat,
                        seconds: int)
    requires Leased(s, j, owner, attempt, until) && other != owner
    ensures var waited := Run(s, [Tick(d), DoLease(j, other, seconds)]);
            Holds(waited, j, other) <==>
            until < s.clock + d && attempt < s.jobs[j].maxAttempts && !s.jobs[j].cancelRequested
  {
    var wait, take := Tick(d), DoLease(j, other, seconds);
    assert [wait, take][..1] == [wait] && [wait][..0] == [];
    assert Run(s, [wait]) == Step(s, wait);
  }

  // ---- an expired lease ----

  ghost predicate Expired(s: Store, j: JobId, owner: Owner) {
    Holds(s, j, owner) ==> s.jobs[j].expires.Some? && s.jobs[j].expires.value < s.clock
  }

  lemma ExpiredStep(s: Store, a: Action, j: JobId, owner: Owner)
    requires j in s.jobs && Expired(s, j, owner) && !LeasesTo(a, j, owner)
    ensures j in Step(s, a).jobs && Expired(Step(s, a), j, owner)
  {
  }

  lemma {:induction false} ExpiredRun(s: Store, j: JobId, owner: Owner, later: seq<Action>)
    requires j in s.jobs && Expired(s, j, owner)
    requires forall a | a in later :: !LeasesTo(a, j, owner)
    ensures j in Run(s, later).jobs && Expired(Run(s, later), j, owner)
  {
    if later != [] {
      ExpiredRun(s, j, owner, later[..|later| - 1]);
      ExpiredStep(Run(s, later[..|later| - 1]), later[|later| - 1], j, owner);
    }
  }

  /** A lease that has run out is never revived: no later heartbeat of its holder is accepted without a new lease. */
  lemma ExpiredLeaseStaysExpired(s: Store, j: JobId, owner: Owner, attempt: nat, until: Time, later: seq<Action>,
                                 stage: string, seconds: int)
    requires Leased(s, j, owner, attempt, until) && until < s.clock
    requires forall a | a in later :: !LeasesTo(a, j, owner)
    ensures Heartbeat(Run(s, later), j, owner, stage, seconds) == (Run(s, later), false)
  {
    ExpiredRun(s, j, owner, later);
  }

  // ---- whose transactions touch a job ----

  /** The transactions that may change job `j` of this tenant. */
  predicate Concerns(a: Action, j: JobId, tenant: Tenant) {
    match a
    case DoLease(k, _, _) => k == j
    case DoHeartbeat(k, _, _, _) => k == j
    case DoFinish(k, _, _, _, _) => k == j
    case DoCancel(t, k) => k == j && t == tenant
    case _ => false
  }

  lemma WriteLeavesOthers(s: Store, k: JobId, row: Job, body: Body, j: JobId)
    requires j in s.jobs && k != j
    ensures Untouched(s, WithJob(s, k, row, body), j)
  {
    EmitLog(s, k, row, body, j);
  }

  lemma SubmitLeavesOthers(s: Store, t: Tenant, sha: string, key: string, request: string, max: nat, doc: DocumentId,
                           k: JobId, j: JobId)
    requires j in s.jobs && k !in s.jobs
    ensures Untouched(s, Submit(s, t, sha, key, request, max, doc, k).0, j)
  {
    if Submit(s, t, sha, key, request, max, doc, k).1.Created? {
      var d := if (t, sha) in s.documents then s.documents[(t, sha)] else doc;
      var filed := s.(documents := s.documents[(t, sha) := d], keys := s.keys[(t, key) := k]);
      WriteLeavesOthers(filed, k, NewJob(s, t, d, key, request, max), EvQueued, j);
    }
  }

  lemma StepLeavesOthers(s: Store, a: Action, j: JobId)
    requires j in s.jobs && !Concerns(a, j, s.jobs[j].tenant)
    ensures Untouched(s, Step(s, a), j)
  {
    match a
    case DoSubmit(t, sha, key, request, max, doc, k) =>
      if Fresh(s, doc, k) { SubmitLeavesOthers(s, t, sha, key, request, max, doc, k, j); }
    case DoLease(k, owner, seconds) =>
      if Leasable(s, k) {
        WriteLeavesOthers(s, k, LeaseRow(s.jobs[k], owner, s.clock + seconds), EvLeased(s.jobs[k].attempt + 1), j);
      }
    case DoHeartbeat(k, owner, stage, seconds) =>
      if LeaseLive(s, k, owner) {
        WriteLeavesOthers(s, k, HeartbeatRow(s.jobs[k], stage, s.clock + seconds), EvProgress(stage), j);
      }
    case DoFinish(k, owner, result, error, retryable) =>
      if Holds(s, k, owner) {
        var outcome := FinishOutcome(s.jobs[k], result, retryable);
        WriteLeavesOthers(s, k, FinishRow(s.jobs[k], outcome, result, error, s.clock),
                          EvClosed(outcome, Code(error)), j);
      }
    case DoCancel(tenant, k) =>
      if RequestCancel(s, tenant, k).1 && k != j {
        WriteLeavesOthers(s, k, CancelRow(s.jobs[k], s.clock), EvCancelRequested, j);
      }
    case _ =>
  }

  /**
   * A job changes, and gets events, only through leases, heartbeats and finishes of its own and
   * cancel requests of its own tenant: no run without them touches its row or its log.
   */
  lemma {:induction false} OnlyItsOwnTransactions(s: Store, j: JobId, later: seq<Action>)
    requires j in s.jobs
    requires forall a | a in later :: !Concerns(a, j, s.jobs[j].tenant)
    ensures Untouched(s, Run(s, later), j)
  {
    if later != [] {
      OnlyItsOwnTransactions(s, j, later[..|later| - 1]);
      StepLeavesOthers(Run(s, later[..|later| - 1]), later[|later| - 1], j);
    }
  }
}
