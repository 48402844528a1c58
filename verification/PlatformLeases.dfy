/** What leases guarantee over whole runs: fencing, bounded attempts, finality, recovery. */
module PlatformLeases {
  import opened Prelude
  import opened PlatformModel
  import opened PlatformRuns

  ghost predicate Reachable(s: Store) {
    exists start: Time, actions: seq<Action> :: s == Run(Empty(start), actions)
  }

  lemma ReachableInv(s: Store)
    requires Reachable(s)
    ensures Inv(s)
  {
    var start: Time, actions: seq<Action> :| s == Run(Empty(start), actions);
    RunsKeepInv(start, actions);
  }

  lemma {:induction false} RunKeepsInv(s: Store, actions: seq<Action>)
    requires Inv(s)
    ensures Inv(Run(s, actions))
  {
    if actions != [] {
      RunKeepsInv(s, actions[..|actions| - 1]);
      StepKeepsInv(Run(s, actions[..|actions| - 1]), actions[|actions| - 1]);
    }
  }

  /** The CHECK constraints of table `dsvire_job`; `attempt >= 0` is in the type. */
  ghost predicate SchemaChecks(row: Job) {
    && 8 <= |row.key| <= 200
    && 1 <= row.maxAttempts <= 20
    && (row.state == Running <==> row.owner.Some? && row.expires.Some?)
    && (row.state !in {Succeeded, Failed, Cancelled} || row.completedAt.Some?)
  }

  /** No transaction ever fails a table constraint, and an owner is set exactly while the job is running. */
  lemma ConstraintsNeverFail(s: Store, j: JobId)
    requires Reachable(s) && j in s.jobs
    ensures SchemaChecks(s.jobs[j])
    ensures s.jobs[j].owner.Some? <==> s.jobs[j].state == Running
  {
    LogIsSound(s, j);
  }

  // ---- finality ----

  lemma EmitLog(s: Store, k: JobId, row: Job, body: Body, j: JobId)
    requires k != j
    ensures Log(WithJob(s, k, row, body).events, j) == Log(s.events, j)
  {
    FilterAppend(s.events, Event(s.nextEvent, row.tenant, k, body), (x: Event) => x.job == j);
  }

  ghost predicate Untouched(s: Store, s': Store, j: JobId)
    requires j in s.jobs
  {
    j in s'.jobs && s'.jobs[j] == s.jobs[j] && Log(s'.events, j) == Log(s.events, j)
  }

  lemma LeaseLeavesTerminal(s: Store, k: JobId, owner: Owner, seconds: int, j: JobId)
    requires j in s.jobs && Terminal(s.jobs[j].state)
    ensures Untouched(s, Step(s, DoLease(k, owner, seconds)), j)
  {
    if Leasable(s, k) {
      EmitLog(s, k, LeaseRow(s.jobs[k], owner, s.clock + seconds), EvLeased(s.jobs[k].attempt + 1), j);
    }
  }

  lemma FinishLeavesTerminal(s: Store, k: JobId, owner: Owner, result: Option<string>, error: Option<string>,
                             retryable: bool, j: JobId)
    requires j in s.jobs && Terminal(s.jobs[j].state)
    ensures Untouched(s, Step(s, DoFinish(k, owner, result, error, retryable)), j)
  {
    if Holds(s, k, owner) {
      var outcome := FinishOutcome(s.jobs[k], result, retryable);
      EmitLog(s, k, FinishRow(s.jobs[k], outcome, result, error, s.clock), EvClosed(outcome, Code(error)), j);
    }
  }

  lemma StepLeavesTerminal(s: Store, a: Action, j: JobId)
    requires j in s.jobs && Terminal(s.jobs[j].state)
    ensures Untouched(s, Step(s, a), j)
  {
    match a
    case Tick(_) =>
    case Abort(_, _) =>
    case DoSubmit(t, sha, key, request, max, doc, k) =>
      if Fresh(s, doc, k) && Submit(s, t, sha, key, request, max, doc, k).1.Created? {
        var d := if (t, sha) in s.documents then s.documents[(t, sha)] else doc;
        EmitLog(s, k, NewJob(s, t, d, key, request, max), EvQueued, j);
      }
    case DoLease(k, owner, seconds) => LeaseLeavesTerminal(s, k, owner, seconds, j);
    case DoHeartbeat(k, owner, stage, seconds) =>
      if LeaseLive(s, k, owner) {
        EmitLog(s, k, HeartbeatRow(s.jobs[k], stage, s.clock + seconds), EvProgress(stage), j);
      }
    case DoFinish(k, owner, result, error, retryable) => FinishLeavesTerminal(s, k, owner, result, error, retryable, j);
    case DoCancel(tenant, k) =>
      if RequestCancel(s, tenant, k).1 { EmitLog(s, k, CancelRow(s.jobs[k], s.clock), EvCancelRequested, j); }
    case DoClaim(_, _, _) =>
    case DoAcknowledge(_, _) =>
  }

  /** A terminal job never changes again and never gets another event, whatever happens later. */
  lemma {:induction false} TerminalIsFinal(s: Store, actions: seq<Action>, j: JobId)
    requires j in s.jobs && Terminal(s.jobs[j].state)
    ensures var s' := Run(s, actions);
            j in s'.jobs && s'.jobs[j] == s.jobs[j] && Log(s'.events, j) == Log(s.events, j)
  {
    if actions != [] {
      TerminalIsFinal(s, actions[..|actions| - 1], j);
      StepLeavesTerminal(Run(s, actions[..|actions| - 1]), actions[|actions| - 1], j);
    }
  }

  // ---- fencing ----

  predicate LeasesTo(a: Action, j: JobId, owner: Owner) {
    a.DoLease? && a.job == j && a.owner == owner
  }

  lemma NotHolderStaysOut(s: Store, a: Action, j: JobId, owner: Owner)
    requires j in s.jobs && !Holds(s, j, owner) && !LeasesTo(a, j, owner)
    ensures j in Step(s, a).jobs && !Holds(Step(s, a), j, owner)
  {
  }

  /** Owners that do not hold the lease cannot touch any table through `heartbeat` or `finish`. */
  lemma FencedCallsChangeNothing(s: Store, j: JobId, owner: Owner, stage: string, seconds: int,
                                 result: Option<string>, error: Option<string>, retryable: bool)
    requires !Holds(s, j, owner)
    ensures Heartbeat(s, j, owner, stage, seconds) == (s, false)
    ensures Finish(s, j, owner, result, error, retryable) == (s, false)
  {
  }

  /**
   * Once an expired lease has been taken by another owner, no later run gives the old owner
   * any effect on the job, as long as that owner name does not lease the job again.
   */
  lemma {:induction false} TakenLeaseFencesOldOwner(
      s: Store, j: JobId, oldOwner: Owner, newOwner: Owner, seconds: int, later: seq<Action>,
      stage: string, extend: int, result: Option<string>, error: Option<string>, retryable: bool)
    requires Leasable(s, j) && oldOwner != newOwner
    requires forall a | a in later :: !LeasesTo(a, j, oldOwner)
    ensures var s' := Run(LeaseJob(s, j, newOwner, seconds), later);
            && Heartbeat(s', j, oldOwner, stage, extend) == (s', false)
            && Finish(s', j, oldOwner, result, error, retryable) == (s', false)
  {
    NotHolderStaysOutOfRuns(LeaseJob(s, j, newOwner, seconds), j, oldOwner, later);
    FencedCallsChangeNothing(Run(LeaseJob(s, j, newOwner, seconds), later), j, oldOwner, stage, extend,
                             result, error, retryable);
  }

  lemma {:induction false} NotHolderStaysOutOfRuns(s: Store, j: JobId, owner: Owner, later: seq<Action>)
    requires j in s.jobs && !Holds(s, j, owner)
    requires forall a | a in later :: !LeasesTo(a, j, owner)
    ensures j in Run(s, later).jobs && !Holds(Run(s, later), j, owner)
  {
    if later != [] {
      NotHolderStaysOutOfRuns(s, j, owner, later[..|later| - 1]);
      NotHolderStaysOut(Run(s, later[..|later| - 1]), later[|later| - 1], j, owner);
    }
  }

  // ---- what a log can look like ----

  lemma {:induction false} PrefixesReplay(log: seq<Event>, n: nat)
    requires Replay(log) != Broken && n <= |log|
    ensures Replay(log[..n]) != Broken
    ensures n > 0 ==> Replay(log[..n]).At?
  {
    if n < |log| {
      assert log[..|log| - 1][..n] == log[..n];
      PrefixesReplay(log[..|log| - 1], n);
    } else {
      assert log[..n] == log;
    }
  }

  lemma ReplayStep(log: seq<Event>, n: nat)
    requires n < |log|
    ensures Replay(log[..n + 1]) == Advance(Replay(log[..n]), log[n].body)
  {
    assert log[..n + 1][..n] == log[..n];
  }

  lemma {:induction false} OnlyLeasesStartRunning(log: seq<Event>, n: nat, k: nat)
    requires Replay(log) != Broken && n <= k <= |log|
    requires !(Replay(log[..n]).At? && Replay(log[..n]).view.state == Running)
    requires Replay(log[..k]).At? && Replay(log[..k]).view.state == Running
    ensures exists m :: n <= m < k && log[m].body.EvLeased?
    decreases k
  {
    ReplayStep(log, k - 1);
    if !log[k - 1].body.EvLeased? {
      OnlyLeasesStartRunning(log, n, k - 1);
    }
  }

  lemma ClosingNeedsAndEndsRunning(t: Trace, body: Body)
    requires body.EvClosed? && Advance(t, body) != Broken
    ensures t.At? && t.view.state == Running
    ensures Advance(t, body).At? && Advance(t, body).view.state != Running
  {
  }

  lemma OneClosing(log: seq<Event>, i: nat, k: nat)
    requires Replay(log) != Broken && i < k < |log|
    requires log[i].body.EvClosed? && log[k].body.EvClosed?
    ensures exists m :: i < m < k && log[m].body.EvLeased?
  {
    PrefixesReplay(log, i + 1);
    PrefixesReplay(log, k + 1);
    ReplayStep(log, i);
    ReplayStep(log, k);
    ClosingNeedsAndEndsRunning(Replay(log[..i]), log[i].body);
    ClosingNeedsAndEndsRunning(Replay(log[..k]), log[k].body);
    OnlyLeasesStartRunning(log, i + 1, k);
  }

  lemma LogIsSound(s: Store, j: JobId)
    requires Reachable(s)
    ensures Replay(Log(s.events, j)) == RowTrace(s, j) != Broken
    ensures j in s.jobs ==> RowOk(s.jobs[j])
  {
    ReachableInv(s);
  }

  /** Between two closings of a job there is always a new lease: a lease is closed at most once. */
  lemma OneClosingPerLease(s: Store, j: JobId, i: nat, k: nat)
    requires Reachable(s) && i < k < |Log(s.events, j)|
    requires Log(s.events, j)[i].body.EvClosed? && Log(s.events, j)[k].body.EvClosed?
    ensures exists m :: i < m < k && Log(s.events, j)[m].body.EvLeased?
  {
    LogIsSound(s, j);
    OneClosing(Log(s.events, j), i, k);
  }

  lemma NothingAdvancesTheEnd(t: Trace, body: Body)
    requires t.At? && Terminal(t.view.state)
    ensures Advance(t, body) == Broken
  {
  }

  lemma EndIsLast(log: seq<Event>, i: nat)
    requires Replay(log) != Broken && i < |log|
    requires Replay(log[..i + 1]).At? && Terminal(Replay(log[..i + 1]).view.state)
    ensures i == |log| - 1
  {
    if i + 1 < |log| {
      NothingAdvancesTheEnd(Replay(log[..i + 1]), log[i + 1].body);
      ReplayStep(log, i + 1);
      PrefixesReplay(log, i + 2);
    }
  }

  /** An event that ends a job, if its log has one, is the last of the log. */
  lemma NothingFollowsTheEnd(s: Store, j: JobId, i: nat)
    requires Reachable(s) && i < |Log(s.events, j)|
    requires var t := Replay(Log(s.events, j)[..i + 1]); t.At? && Terminal(t.view.state)
    ensures i == |Log(s.events, j)| - 1
  {
    LogIsSound(s, j);
    EndIsLast(Log(s.events, j), i);
  }

  predicate IsLease(e: Event) { e.body.EvLeased? }

  lemma {:induction false} LeasesCountAttempts(log: seq<Event>)
    requires Replay(log).At?
    ensures Count(log, IsLease) == Replay(log).view.attempt
  {
    var front := log[..|log| - 1];
    if Replay(front).At? {
      LeasesCountAttempts(front);
    } else {
      PrefixesReplay(log, |log| - 1);
      assert front == log[..|log| - 1];
      assert front == [];
    }
  }

  lemma PayloadNumbersLease(log: seq<Event>, i: nat)
    requires Replay(log) != Broken && i < |log| && log[i].body.EvLeased?
    ensures log[i].body.attempt == Count(log[..i], IsLease) + 1
  {
    PrefixesReplay(log, i + 1);
    ReplayStep(log, i);
    LeasesCountAttempts(log[..i]);
  }

  /** Number `n` in the n-th `leased` payload, and never more leases than `max_attempts`. */
  lemma AttemptsAreLeases(s: Store, j: JobId)
    requires Reachable(s) && j in s.jobs
    ensures Count(Log(s.events, j), IsLease) == s.jobs[j].attempt <= s.jobs[j].maxAttempts <= MAX_ATTEMPTS_LIMIT
    ensures forall i | 0 <= i < |Log(s.events, j)| && Log(s.events, j)[i].body.EvLeased? ::
              Log(s.events, j)[i].body.attempt == Count(Log(s.events, j)[..i], IsLease) + 1
  {
    LogIsSound(s, j);
    var log := Log(s.events, j);
    LeasesCountAttempts(log);
    forall i | 0 <= i < |log| && log[i].body.EvLeased?
      ensures log[i].body.attempt == Count(log[..i], IsLease) + 1
    {
      PayloadNumbersLease(log, i);
    }
  }

  // ---- recovery ----

  ghost predicate SomeDayLeasable(s: Store, j: JobId) {
    exists later: seq<Action> :: Leasable(Run(s, later), j)
  }

  /** Terminal, or running with nothing that could put the job back into the queue. */
  predicate Lost(s: Store, j: JobId) {
    && j in s.jobs
    && var row := s.jobs[j];
       Terminal(row.state) || (row.state == Running && (row.attempt >= row.maxAttempts || row.cancelRequested))
  }

  lemma LostStaysLost(s: Store, a: Action, j: JobId)
    requires Lost(s, j)
    ensures Lost(Step(s, a), j)
  {
  }

  lemma {:induction false} LostForever(s: Store, later: seq<Action>, j: JobId)
    requires Lost(s, j)
    ensures Lost(Run(s, later), j) && !Leasable(Run(s, later), j)
  {
    if later != [] {
      LostForever(s, later[..|later| - 1], j);
      LostStaysLost(Run(s, later[..|later| - 1]), later[|later| - 1], j);
    }
  }

  lemma WaitingRuns(s: Store, j: JobId, d: nat)
    requires Leasable(Step(s, Tick(d)), j)
    ensures SomeDayLeasable(s, j)
  {
    assert [Tick(d)][..0] == [];
    assert Run(s, [Tick(d)]) == Step(s, Tick(d));
  }

  /**
   * The jobs that no later run can lease again are exactly the terminal ones and the running
   * ones at their last attempt or with a cancel request; a queued job is leasable at once.
   */
  lemma RecoverableExactly(s: Store, j: JobId)
    requires Reachable(s) && j in s.jobs
    ensures s.jobs[j].state == Queued ==> Leasable(s, j)
    ensures !SomeDayLeasable(s, j) <==>
            Terminal(s.jobs[j].state) ||
            (s.jobs[j].state == Running && (s.jobs[j].attempt == s.jobs[j].maxAttempts || s.jobs[j].cancelRequested))
  {
    LogIsSound(s, j);
    var row := s.jobs[j];
    if Lost(s, j) {
      forall later: seq<Action> ensures !Leasable(Run(s, later), j) { LostForever(s, later, j); }
    } else if row.state == Queued {
      WaitingRuns(s, j, 0);
    } else {
      WaitingRuns(s, j, if row.expires.value < s.clock then 0 else row.expires.value - s.clock + 1);
    }
  }

  predicate ClosesFor(a: Action, j: JobId, owner: Owner) {
    a.DoFinish? && a.job == j && a.owner == owner
  }

  lemma StrandedStep(s: Store, j: JobId, owner: Owner, a: Action)
    requires Holds(s, j, owner) && (s.jobs[j].attempt >= s.jobs[j].maxAttempts || s.jobs[j].cancelRequested)
    requires !ClosesFor(a, j, owner)
    ensures var s' := Step(s, a);
            Holds(s', j, owner) && (s'.jobs[j].attempt >= s'.jobs[j].maxAttempts || s'.jobs[j].cancelRequested)
  {
  }

  /** If the worker holding such a job has crashed, the job stays `running` in every later run. */
  lemma {:induction false} StrandedForever(s: Store, j: JobId, owner: Owner, later: seq<Action>)
    requires Holds(s, j, owner) && (s.jobs[j].attempt >= s.jobs[j].maxAttempts || s.jobs[j].cancelRequested)
    requires forall a | a in later :: !ClosesFor(a, j, owner)
    ensures Holds(Run(s, later), j, owner)
    ensures Run(s, later).jobs[j].attempt >= Run(s, later).jobs[j].maxAttempts || Run(s, later).jobs[j].cancelRequested
  {
    if later != [] {
      StrandedForever(s, j, owner, later[..|later| - 1]);
      StrandedStep(Run(s, later[..|later| - 1]), j, owner, later[|later| - 1]);
    }
  }

  // ---- submission ----

  /** Documents filed under different hashes have different identifiers. */
  ghost predicate DocumentsDiffer(s: Store) {
    forall p, q | p in s.documents && q in s.documents && s.documents[p] == s.documents[q] :: p == q
  }

  lemma StepKeepsDocuments(s: Store, a: Action)
    requires DocumentsDiffer(s)
    ensures DocumentsDiffer(Step(s, a))
  {
    if a.DoSubmit? && Fresh(s, a.newDoc, a.newJob) {
      FiledDiffer(s, a.tenant, a.sha, a.key, a.request, a.maxAttempts, a.newDoc, a.newJob);
    }
  }

  lemma FiledDiffer(s: Store, t: Tenant, sha: string, key: string, request: string, max: nat, newDoc: DocumentId,
                    newJob: JobId)
    requires DocumentsDiffer(s) && Fresh(s, newDoc, newJob)
    ensures DocumentsDiffer(Submit(s, t, sha, key, request, max, newDoc, newJob).0)
  {
    assert forall p | p in s.documents :: s.documents[p] in s.documents.Values;
  }

  lemma {:induction false} RunKeepsDocuments(s: Store, later: seq<Action>)
    requires DocumentsDiffer(s)
    ensures DocumentsDiffer(Run(s, later))
  {
    if later != [] {
      RunKeepsDocuments(s, later[..|later| - 1]);
      StepKeepsDocuments(Run(s, later[..|later| - 1]), later[|later| - 1]);
    }
  }

  lemma ReachableDocuments(s: Store)
    requires Reachable(s)
    ensures DocumentsDiffer(s)
  {
    var start: Time, actions: seq<Action> :| s == Run(Empty(start), actions);
    RunKeepsDocuments(Empty(start), actions);
  }

  ghost predicate Bound(s: Store, t: Tenant, sha: string, key: string, request: string, j: JobId) {
    && (t, sha) in s.documents && (t, key) in s.keys && s.keys[(t, key)] == j
    && j in s.jobs && s.jobs[j].document == s.documents[(t, sha)] && s.jobs[j].request == request
  }

  lemma StepKeepsBinding(s: Store, a: Action, t: Tenant, sha: string, key: string, request: string, j: JobId)
    requires Bound(s, t, sha, key, request, j)
    ensures Bound(Step(s, a), t, sha, key, request, j)
  {
  }

  lemma {:induction false} RunKeepsBinding(s: Store, later: seq<Action>, t: Tenant, sha: string, key: string,
                                           request: string, j: JobId)
    requires Bound(s, t, sha, key, request, j)
    ensures Bound(Run(s, later), t, sha, key, request, j)
  {
    if later != [] {
      RunKeepsBinding(s, later[..|later| - 1], t, sha, key, request, j);
      StepKeepsBinding(Run(s, later[..|later| - 1]), later[|later| - 1], t, sha, key, request, j);
    }
  }

  /**
   * Submitting under a used key after any later run changes no table: it returns the job the
   * first submission created when the document and the request are the same, and is refused
   * otherwise.
   */
  lemma SubmitOnce(s: Store, t: Tenant, sha: string, key: string, request: string, max: nat,
                   newDoc: DocumentId, newJob: JobId, later: seq<Action>,
                   sha2: string, again: string, max2: nat, otherDoc: DocumentId, otherJob: JobId)
    requires Reachable(s) && Fresh(s, newDoc, newJob) && JobChecks(key, max2)
    requires Submit(s, t, sha, key, request, max, newDoc, newJob).1 == Created(newJob)
    requires Fresh(Run(Submit(s, t, sha, key, request, max, newDoc, newJob).0, later), otherDoc, otherJob)
    ensures var s' := Run(Submit(s, t, sha, key, request, max, newDoc, newJob).0, later);
            Submit(s', t, sha2, key, again, max2, otherDoc, otherJob) ==
            (s', if sha2 == sha && again == request then Existing(newJob) else Conflict)
  {
    var s0 := Submit(s, t, sha, key, request, max, newDoc, newJob).0;
    assert Bound(s0, t, sha, key, request, newJob);
    ReachableDocuments(s);
    FiledDiffer(s, t, sha, key, request, max, newDoc, newJob);
    RunKeepsDocuments(s0, later);
    RunKeepsBinding(s0, later, t, sha, key, request, newJob);
    Resubmitted(Run(s0, later), t, sha, key, request, newJob, sha2, again, max2, otherDoc, otherJob);
  }

  lemma Resubmitted(s: Store, t: Tenant, sha: string, key: string, request: string, j: JobId,
                    sha2: string, again: string, max2: nat, otherDoc: DocumentId, otherJob: JobId)
    requires DocumentsDiffer(s) && Bound(s, t, sha, key, request, j) && JobChecks(key, max2) &&
             Fresh(s, otherDoc, otherJob)
    ensures Submit(s, t, sha2, key, again, max2, otherDoc, otherJob) ==
            (s, if sha2 == sha && again == request then Existing(j) else Conflict)
  {
    assert s.documents[(t, sha)] in s.documents.Values;
  }
}
