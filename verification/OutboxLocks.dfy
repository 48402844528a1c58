/** A claimed outbox row is its dispatcher's alone until the lock has run out. */
module OutboxLocks {
  import opened Prelude
  import opened PlatformModel
  import opened PlatformRuns
  import opened PlatformLeases
  import D = OutboxDispatch
  import L = LeaseExclusion

  /** Row `i` is unpublished and locked until `until`. */
  predicate LockedUntil(s: Store, i: nat, owner: Owner, until: Time) {
    && i < |s.outbox| && s.outbox[i].publishedAt.None?
    && s.outbox[i].lockOwner == Some(owner) && s.outbox[i].lockExpires == Some(until)
  }

  predicate Acknowledges(a: Action, owner: Owner, id: nat) {
    a.DoAcknowledge? && a.owner == owner && a.row == id
  }

  ghost predicate RowsInOrder(s: Store) {
    forall a, b | 0 <= a < b < |s.outbox| :: s.outbox[a].id < s.outbox[b].id
  }

  lemma RunKeepsOrder(s: Store, later: seq<Action>)
    requires Reachable(s)
    ensures RowsInOrder(Run(s, later))
  {
    ReachableInv(s);
    RunKeepsInv(s, later);
  }

  /** A claim does not take a row whose lock has not run out. */
  lemma LockKeepsOthersOut(s: Store, i: nat, owner: Owner, until: Time, other: Owner, limit: int, skip: set<nat>)
    requires RowsInOrder(s) && LockedUntil(s, i, owner, until) && s.clock <= until
    ensures s.outbox[i].id !in ClaimOutbox(s, other, limit, skip).1
    ensures ClaimOutbox(s, other, limit, skip).0.outbox[i] == s.outbox[i]
  {
    D.ClaimTakesExactly(s.outbox, s.clock, skip, Clamp(limit), i);
  }

  lemma LockedStep(s: Store, a: Action, i: nat, owner: Owner, until: Time)
    requires RowsInOrder(s) && LockedUntil(s, i, owner, until) && s.clock <= until
    requires !Acknowledges(a, owner, s.outbox[i].id)
    ensures i < |Step(s, a).outbox| && Step(s, a).outbox[i] == s.outbox[i]
  {
    match a
    case DoClaim(other, limit, skip) => LockKeepsOthersOut(s, i, owner, until, other, limit, skip);
    case DoAcknowledge(_, _) =>
    case _ => D.StepAppendsRow(s, a);
  }

  /**
   * Until the lock has run out, or its owner acknowledges the row, nothing that others do changes
   * the row, and no claim takes it.
   */
  lemma {:induction false} LockExcludes(s: Store, i: nat, owner: Owner, until: Time, later: seq<Action>, other: Owner,
                                        limit: int, skip: set<nat>)
    requires Reachable(s) && LockedUntil(s, i, owner, until)
    requires forall a | a in later :: !Acknowledges(a, owner, s.outbox[i].id)
    requires Run(s, later).clock <= until
    ensures i < |Run(s, later).outbox| && Run(s, later).outbox[i] == s.outbox[i]
    ensures s.outbox[i].id !in ClaimOutbox(Run(s, later), other, limit, skip).1
  {
    RunKeepsOrder(s, later);
    if later != [] {
      var front, last := later[..|later| - 1], later[|later| - 1];
      RunKeepsOrder(s, front);
      L.ClockMovesOn(Run(s, front), last);
      LockExcludes(s, i, owner, until, front, other, limit, skip);
      LockedStep(Run(s, front), last, i, owner, until);
    }
    LockKeepsOthersOut(Run(s, later), i, owner, until, other, limit, skip);
  }

  /** A claimed row stays with the claim for 30 seconds, unless its owner acknowledges it before. */
  lemma ClaimLasts(s: Store, i: nat, owner: Owner, limit: int, skip: set<nat>, later: seq<Action>, other: Owner,
                   otherLimit: int, otherSkip: set<nat>)
    requires Reachable(s) && i < |s.outbox|
    requires s.outbox[i].id in ClaimOutbox(s, owner, limit, skip).1
    requires forall a | a in later :: !Acknowledges(a, owner, s.outbox[i].id)
    requires Run(ClaimOutbox(s, owner, limit, skip).0, later).clock <= s.clock + 30
    ensures var claimed := Run(ClaimOutbox(s, owner, limit, skip).0, later);
            s.outbox[i].id !in ClaimOutbox(claimed, other, otherLimit, otherSkip).1
  {
    ClaimLocks(s, i, owner, limit, skip);
    StaysReachable(s, DoClaim(owner, limit, skip));
    LockExcludes(ClaimOutbox(s, owner, limit, skip).0, i, owner, s.clock + 30, later, other, otherLimit, otherSkip);
  }

  lemma ClaimLocks(s: Store, i: nat, owner: Owner, limit: int, skip: set<nat>)
    requires Reachable(s) && i < |s.outbox| && s.outbox[i].id in ClaimOutbox(s, owner, limit, skip).1
    ensures LockedUntil(ClaimOutbox(s, owner, limit, skip).0, i, owner, s.clock + 30)
    ensures ClaimOutbox(s, owner, limit, skip).0.outbox[i].id == s.outbox[i].id
  {
    RunKeepsOrder(s, []);
    D.ClaimTakesExactly(s.outbox, s.clock, skip, Clamp(limit), i);
  }

  lemma StaysReachable(s: Store, a: Action)
    requires Reachable(s)
    ensures Reachable(Step(s, a))
  {
    var start: Time, actions: seq<Action> :| s == Run(Empty(start), actions);
    assert (actions + [a])[..|actions|] == actions;
    assert Step(s, a) == Run(Empty(start), actions + [a]);
  }

  /** An unpublished row is free for any claim exactly when it has no lock, or the lock has run out. */
  lemma FreeExactly(s: Store, i: nat, other: Owner)
    requires Reachable(s) && i < |s.outbox|
    requires forall k | 0 <= k < i :: s.outbox[k].publishedAt.Some?
    ensures s.outbox[i].id in ClaimOutbox(s, other, 1, {}).1 <==>
            s.outbox[i].publishedAt.None? && (s.outbox[i].lockExpires.None? || s.outbox[i].lockExpires.value < s.clock)
  {
    RunKeepsOrder(s, []);
    D.ClaimTakesExactly(s.outbox, s.clock, {}, 1, i);
    NoneAhead(s.outbox, s.clock, i);
  }

  lemma {:induction false} NoneAhead(rows: seq<OutboxRow>, clock: Time, i: nat)
    requires i <= |rows| && forall k | 0 <= k < i :: rows[k].publishedAt.Some?
    ensures D.Ahead(rows, clock, {}, i) == 0
    decreases i
  {
    if i > 0 {
      assert rows[0].publishedAt.Some?;
      NoneAhead(rows[1..], clock, i - 1);
    }
  }
}
