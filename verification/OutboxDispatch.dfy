/** Redis fan-out over the outbox by any number of dispatchers. */
module OutboxDispatch {
  // Dispatchers, under any owner names, claim rows, publish them one by one and acknowledge each
  // after its publish. A publish that completed is recorded in `published`; a successful
  // acknowledgement in `marks`.

  import opened Prelude
  import opened PlatformModel
  import opened PlatformRuns
  import opened PlatformLeases
  import Db = PlatformDb

  /** Where a dispatcher stands in its loop over the claimed messages; the head of `Sent` is published. */
  datatype Phase = Idle | Sending(rest: seq<nat>) | Sent(rest: seq<nat>)

  datatype Process = Process(owner: Owner, phase: Phase)

  datatype System = System(store: Store, processes: map<nat, Process>, published: set<nat>, marks: multiset<nat>)

  datatype Move =
    | Other(action: Action)
    | Start(pid: nat, name: Owner)
    | Claim(pid: nat, limit: int, skip: set<nat>)
    | Publish(pid: nat)
    | Acknowledge(pid: nat)
    | Fail(pid: nat)

  function Initial(clock: Time): System { System(Empty(clock), map[], {}, multiset{}) }

  function SetPhase(y: System, pid: nat, phase: Phase): System
    requires pid in y.processes
  {
    y.(processes := y.processes[pid := y.processes[pid].(phase := phase)])
  }

  /** `Fail` is an exception or a crash: the claimed list is dropped, the rows stay locked. */
  function MoveStep(y: System, m: Move): System {
    match m
    case Other(a) =>
      if a.DoClaim? || a.DoAcknowledge? then y else y.(store := Step(y.store, a))
    case Start(pid, name) => y.(processes := y.processes[pid := Process(name, Idle)])
    case Claim(pid, limit, skip) =>
      if pid in y.processes && y.processes[pid].phase.Idle? then
        var (store, ids) := ClaimOutbox(y.store, y.processes[pid].owner, limit, skip);
        SetPhase(y.(store := store), pid, if ids == [] then Idle else Sending(ids))
      else y
    case Publish(pid) =>
      if pid in y.processes && y.processes[pid].phase.Sending? && y.processes[pid].phase.rest != [] then
        var rest := y.processes[pid].phase.rest;
        SetPhase(y, pid, Sent(rest)).(published := y.published + {rest[0]})
      else y
    case Acknowledge(pid) =>
      if pid in y.processes && y.processes[pid].phase.Sent? && y.processes[pid].phase.rest != [] then
        var rest := y.processes[pid].phase.rest;
        var (store, ok) := AcknowledgeOutbox(y.store, y.processes[pid].owner, rest[0]);
        SetPhase(y.(store := store), pid, if |rest| == 1 then Idle else Sending(rest[1..]))
          .(marks := if ok then y.marks + multiset{rest[0]} else y.marks)
      else y
    case Fail(pid) =>
      if pid in y.processes then SetPhase(y, pid, Idle) else y
  }

  function Moves(y: System, moves: seq<Move>): System {
    if moves == [] then y else MoveStep(Moves(y, moves[..|moves| - 1]), moves[|moves| - 1])
  }

  // ---- the invariant ----

  ghost predicate SentIsPublished(y: System) {
    forall pid | pid in y.processes && y.processes[pid].phase.Sent? ::
      y.processes[pid].phase.rest != [] && y.processes[pid].phase.rest[0] in y.published
  }

  ghost predicate RowDelivered(y: System, row: OutboxRow) {
    && (row.publishedAt.Some? ==> row.id in y.published)
    && y.marks[row.id] == (if row.publishedAt.Some? then 1 else 0)
  }

  ghost predicate RowsDelivered(y: System) {
    && (forall i | 0 <= i < |y.store.outbox| :: RowDelivered(y, y.store.outbox[i]))
    && (forall id | id in y.marks :: id < y.store.nextRow)
  }

  /** No row is locked further than 30 seconds ahead. */
  ghost predicate LocksShort(s: Store) {
    forall i | 0 <= i < |s.outbox| :: s.outbox[i].lockExpires.Some? ==>
      s.outbox[i].lockExpires.value <= s.clock + OUTBOX_LOCK_SECONDS
  }

  ghost predicate SystemInv(y: System) {
    Inv(y.store) && SentIsPublished(y) && RowsDelivered(y) && LocksShort(y.store)
  }

  /** What a transaction that is not an outbox transaction does to the outbox. */
  lemma StepAppendsRow(s: Store, a: Action)
    requires !a.DoClaim? && !a.DoAcknowledge?
    ensures var s' := Step(s, a);
            && s'.clock >= s.clock && s'.nextRow >= s.nextRow
            && (s'.outbox == s.outbox ||
                (exists row: OutboxRow :: s'.outbox == s.outbox + [row] && row.id == s.nextRow < s'.nextRow
                                          && row.publishedAt.None? && row.lockExpires.None?))
  {
  }

  lemma OtherKeepsRows(y: System, a: Action, y': System)
    requires RowsDelivered(y) && LocksShort(y.store) && !a.DoClaim? && !a.DoAcknowledge?
    requires y' == y.(store := Step(y.store, a))
    ensures RowsDelivered(y') && LocksShort(y'.store)
  {
    StepAppendsRow(y.store, a);
    forall i | 0 <= i < |y'.store.outbox| ensures RowDelivered(y', y'.store.outbox[i]) {
      if i < |y.store.outbox| {
        assert RowDelivered(y, y.store.outbox[i]);
      }
    }
  }

  lemma ClaimKeepsRows(y: System, rows: seq<OutboxRow>, owner: Owner, ids: seq<nat>)
    requires RowsDelivered(y) && LocksShort(y.store)
    requires rows == ClaimAll(y.store.outbox, owner, y.store.clock, ids)
    ensures RowsDelivered(y.(store := y.store.(outbox := rows))) && LocksShort(y.store.(outbox := rows))
  {
    forall i | 0 <= i < |rows| ensures RowDelivered(y, rows[i]) {
      assert RowDelivered(y, y.store.outbox[i]);
    }
  }

  lemma SamePhaseRows(y: System, y': System)
    requires RowsDelivered(y) && y'.store == y.store && y'.marks == y.marks && y.published <= y'.published
    ensures RowsDelivered(y')
  {
    forall i | 0 <= i < |y'.store.outbox| ensures RowDelivered(y', y'.store.outbox[i]) {
      assert RowDelivered(y, y.store.outbox[i]);
    }
  }

  lemma ClaimKeepsInv(y: System, pid: nat, limit: int, skip: set<nat>, y': System)
    requires SystemInv(y) && y' == MoveStep(y, Claim(pid, limit, skip))
    ensures SystemInv(y')
  {
    if pid in y.processes && y.processes[pid].phase.Idle? {
      var owner := y.processes[pid].owner;
      var store := ClaimOutbox(y.store, owner, limit, skip).0;
      assert store == Step(y.store, DoClaim(owner, limit, skip));
      StepKeepsInv(y.store, DoClaim(owner, limit, skip));
      ClaimKeepsRows(y, store.outbox, owner, ClaimOutbox(y.store, owner, limit, skip).1);
      assert y'.store == store;
      SamePhaseRows(y.(store := store), y');
    }
  }

  lemma OtherIdsDiffer(s: Store, i: nat, k: nat)
    requires OutboxOk(s) && i < |s.outbox| && k < |s.outbox|
    ensures s.outbox[i].id == s.outbox[k].id ==> i == k
  {
  }

  lemma AcknowledgeKeepsRows(y: System, rows: seq<OutboxRow>, owner: Owner, id: nat, ok: bool, y': System)
    requires OutboxOk(y.store) && RowsDelivered(y) && LocksShort(y.store) && id in y.published
    requires rows == AckAll(y.store.outbox, owner, y.store.clock, id) && ok == AcknowledgeOutbox(y.store, owner, id).1
    requires y' == y.(store := y.store.(outbox := rows), marks := if ok then y.marks + multiset{id} else y.marks)
    ensures RowsDelivered(y') && LocksShort(y'.store)
  {
    forall i | 0 <= i < |rows| ensures RowDelivered(y', rows[i]) {
      assert RowDelivered(y, y.store.outbox[i]);
      if ok && y.store.outbox[i].id == id {
        var k :| 0 <= k < |y.store.outbox| && Acknowledgeable(y.store.outbox[k], owner, id);
        OtherIdsDiffer(y.store, i, k);
      }
    }
  }

  lemma AcknowledgeKeepsInv(y: System, pid: nat, y': System)
    requires SystemInv(y) && y' == MoveStep(y, Acknowledge(pid))
    ensures SystemInv(y')
  {
    if pid in y.processes && y.processes[pid].phase.Sent? && y.processes[pid].phase.rest != [] {
      var owner, id := y.processes[pid].owner, y.processes[pid].phase.rest[0];
      var (store, ok) := AcknowledgeOutbox(y.store, owner, id);
      assert store == Step(y.store, DoAcknowledge(owner, id));
      StepKeepsInv(y.store, DoAcknowledge(owner, id));
      var acked := y.(store := store, marks := if ok then y.marks + multiset{id} else y.marks);
      AcknowledgeKeepsRows(y, store.outbox, owner, id, ok, acked);
      SamePhaseRows(acked, y');
    }
  }

  lemma MoveKeepsInv(y: System, m: Move)
    requires SystemInv(y)
    ensures SystemInv(MoveStep(y, m))
  {
    var y' := MoveStep(y, m);
    match m
    case Other(a) =>
      if !a.DoClaim? && !a.DoAcknowledge? {
        StepKeepsInv(y.store, a);
        OtherKeepsRows(y, a, y');
      }
    case Claim(pid, limit, skip) => ClaimKeepsInv(y, pid, limit, skip, y');
    case Acknowledge(pid) => AcknowledgeKeepsInv(y, pid, y');
    case Publish(_) => SamePhaseRows(y, y');
    case Start(_, _) => SamePhaseRows(y, y');
    case Fail(_) => SamePhaseRows(y, y');
  }

  lemma {:induction false} MovesKeepInv(start: Time, moves: seq<Move>)
    ensures SystemInv(Moves(Initial(start), moves))
  {
    if moves == [] {
      RunsKeepInv(start, []);
    } else {
      MovesKeepInv(start, moves[..|moves| - 1]);
      MoveKeepsInv(Moves(Initial(start), moves[..|moves| - 1]), moves[|moves| - 1]);
    }
  }

  // ---- the promises ----

  /** Every event has exactly one outbox row. */
  lemma OneRowPerEvent(s: Store, i: nat)
    requires Reachable(s) && i < |s.events|
    ensures i < |s.outbox| && Announces(s.outbox[i], s.events[i])
    ensures forall k | 0 <= k < |s.outbox| :: s.outbox[k].eventId == s.events[i].id ==> k == i
  {
    ReachableInv(s);
    forall k | 0 <= k < |s.outbox| && k != i ensures s.outbox[k].eventId != s.events[i].id {
      assert Announces(s.outbox[k], s.events[k]);
    }
  }

  /**
   * In every reachable state of every set of dispatchers: a row is marked published only if
   * some Redis publish of it completed, it is marked at most once, and as long as it is not
   * marked it becomes claimable again once 31 seconds pass.
   */
  lemma AtLeastOnceDelivery(start: Time, moves: seq<Move>, i: nat)
    requires i < |Moves(Initial(start), moves).store.outbox|
    ensures var y := Moves(Initial(start), moves); var row := y.store.outbox[i];
            && (row.publishedAt.Some? ==> row.id in y.published)
            && y.marks[row.id] <= 1
            && (y.marks[row.id] == 1 <==> row.publishedAt.Some?)
            && (row.publishedAt.None? ==> Claimable(row, y.store.clock + OUTBOX_LOCK_SECONDS + 1))
  {
    MovesKeepInv(start, moves);
    var y := Moves(Initial(start), moves);
    assert RowDelivered(y, y.store.outbox[i]);
  }

  /** Claimable rows, not skipped, among the first `i`. */
  function Ahead(rows: seq<OutboxRow>, clock: Time, skip: set<nat>, i: nat): nat
    requires i <= |rows|
  {
    if i == 0 then 0
    else (if Claimable(rows[0], clock) && rows[0].id !in skip then 1 else 0) + Ahead(rows[1..], clock, skip, i - 1)
  }

  /**
   * Exactly which rows a claim takes: the claimable, unskipped rows with fewer than `limit`
   * such rows ahead of them. In particular a published row is never claimed.
   */
  lemma {:induction false} ClaimTakesExactly(rows: seq<OutboxRow>, clock: Time, skip: set<nat>, limit: nat, i: nat)
    requires i < |rows|
    requires forall a, b | 0 <= a < b < |rows| :: rows[a].id < rows[b].id
    ensures rows[i].id in ClaimIds(rows, clock, skip, limit) <==>
            Claimable(rows[i], clock) && rows[i].id !in skip && Ahead(rows, clock, skip, i) < limit
    decreases i
  {
    if limit > 0 {
      var taken := Claimable(rows[0], clock) && rows[0].id !in skip;
      var rest := if taken then limit - 1 else limit;
      if i > 0 {
        ClaimTakesExactly(rows[1..], clock, skip, rest, i - 1);
        assert rows[i].id != rows[0].id;
      } else if !taken {
        ClaimsComeFromRows(rows[1..], clock, skip, rest);
      }
    }
  }

  lemma {:induction false} ClaimsComeFromRows(rows: seq<OutboxRow>, clock: Time, skip: set<nat>, limit: nat)
    ensures forall id | id in ClaimIds(rows, clock, skip, limit) :: exists k :: 0 <= k < |rows| && rows[k].id == id
    ensures |ClaimIds(rows, clock, skip, limit)| <= limit
  {
    if rows != [] && limit > 0 {
      var rest := if Claimable(rows[0], clock) && rows[0].id !in skip then limit - 1 else limit;
      ClaimsComeFromRows(rows[1..], clock, skip, rest);
      forall id | id in ClaimIds(rows, clock, skip, limit)
        ensures exists k :: 0 <= k < |rows| && rows[k].id == id
      {
        if id != rows[0].id {
          var k :| 0 <= k < |rows[1..]| && rows[1..][k].id == id;
          assert rows[k + 1].id == id;
        }
      }
    }
  }

  // ---- one pass of the loop ----

  /** The outbox after `owner` claimed `ids` and had the first of them, `sent`, acknowledged. */
  function AfterRound(rows: seq<OutboxRow>, owner: Owner, clock: Time, ids: seq<nat>, sent: seq<nat>): seq<OutboxRow> {
    seq(|rows|, i requires 0 <= i < |rows| =>
      if rows[i].id !in ids then rows[i]
      else if rows[i].id in sent && rows[i].publishedAt.None? then AckRow(ClaimRow(rows[i], owner, clock), clock)
      else ClaimRow(rows[i], owner, clock))
  }

  lemma AcknowledgeNext(rows: seq<OutboxRow>, owner: Owner, clock: Time, ids: seq<nat>, n: nat)
    requires n < |ids|
    ensures AckAll(AfterRound(rows, owner, clock, ids, ids[..n]), owner, clock, ids[n])
            == AfterRound(rows, owner, clock, ids, ids[..n + 1])
  {
    assert ids[..n + 1] == ids[..n] + [ids[n]];
  }

  predicate MovesProcess(m: Move, pid: nat) {
    match m
    case Other(_) => false
    case Start(p, _) => p == pid
    case Claim(p, _, _) => p == pid
    case Publish(p) => p == pid
    case Acknowledge(p) => p == pid
    case Fail(p) => p == pid
  }

  lemma {:induction false} MovesConcat(y: System, first: seq<Move>, second: seq<Move>)
    ensures Moves(y, first + second) == Moves(Moves(y, first), second)
  {
    if second == [] {
      assert first + second == first;
    } else {
      var front := second[..|second| - 1];
      MovesConcat(y, first, front);
      assert (first + second)[..|first + second| - 1] == first + front;
    }
  }

  /** Others neither move a process nor take back a publish. */
  lemma {:induction false} OthersLeaveProcess(y: System, moves: seq<Move>, pid: nat)
    requires pid in y.processes && forall m | m in moves :: !MovesProcess(m, pid)
    ensures var y' := Moves(y, moves);
            pid in y'.processes && y'.processes[pid] == y.processes[pid] && y.published <= y'.published
  {
    if moves != [] {
      OthersLeaveProcess(y, moves[..|moves| - 1], pid);
      OtherLeavesProcess(Moves(y, moves[..|moves| - 1]), moves[|moves| - 1], pid);
    }
  }

  lemma OtherLeavesProcess(y: System, m: Move, pid: nat)
    requires pid in y.processes && !MovesProcess(m, pid)
    ensures var y' := MoveStep(y, m);
            pid in y'.processes && y'.processes[pid] == y.processes[pid] && y.published <= y'.published
  {
  }

  /** Other clients and dispatchers, and time. */
  method OtherMoves(db: Db.PlatformDatabase, y: System, moves: seq<Move>, pid: nat) returns (y': System)
    requires db.Snapshot() == y.store && pid in y.processes && forall m | m in moves :: !MovesProcess(m, pid)
    modifies db
    ensures y' == Moves(y, moves) && db.Snapshot() == y'.store
    ensures pid in y'.processes && y'.processes[pid] == y.processes[pid] && y.published <= y'.published
  {
    OthersLeaveProcess(y, moves, pid);
    y' := Moves(y, moves);
    var s := y'.store;
    db.clock, db.documents, db.keys, db.jobs := s.clock, s.documents, s.keys, s.jobs;
    db.events, db.outbox, db.nextEvent, db.nextRow := s.events, s.outbox, s.nextEvent, s.nextRow;
  }

  /** Publishing one claimed message and acknowledging it, while others move before and in between. */
  method PublishAndAcknowledge(db: Db.PlatformDatabase, y: System, pid: nat, before: seq<Move>, between: seq<Move>)
    returns (y': System, ghost moves: seq<Move>)
    requires db.Snapshot() == y.store && pid in y.processes && y.processes[pid].phase.Sending? &&
             y.processes[pid].phase.rest != []
    requires forall m | m in before + between :: !MovesProcess(m, pid)
    modifies db
    ensures moves == before + [Publish(pid)] + between + [Acknowledge(pid)]
    ensures y' == Moves(y, moves) && db.Snapshot() == y'.store && pid in y'.processes
    ensures var rest := y.processes[pid].phase.rest;
            && y'.processes[pid] == y.processes[pid].(phase := if |rest| == 1 then Idle else Sending(rest[1..]))
            && y.published + {rest[0]} <= y'.published
    ensures before == between == [] ==>
            db.Snapshot() == AcknowledgeOutbox(y.store, y.processes[pid].owner, y.processes[pid].phase.rest[0]).0
  {
    var owner, id := y.processes[pid].owner, y.processes[pid].phase.rest[0];
    y' := OtherMoves(db, y, before, pid);
    moves := before + [Publish(pid)];
    MovesConcat(y, before, [Publish(pid)]);
    y' := MoveStep(y', Publish(pid));
    assert Moves(y, moves) == y' by { assert [Publish(pid)][..0] == []; }
    MovesConcat(y, moves, between);
    y' := OtherMoves(db, y', between, pid);
    moves := moves + between;
    var _ := db.AcknowledgeOutbox(owner, id);
    MovesConcat(y, moves, [Acknowledge(pid)]);
    moves := moves + [Acknowledge(pid)];
    y' := MoveStep(y', Acknowledge(pid));
    assert [Acknowledge(pid)][..0] == [];
  }

  /**
   * What others do before and between the calls of a round: `before(k)` ahead of the publish of
   * message `k`, `between(k)` after it.
   */
  datatype Surroundings = Surroundings(before: nat -> seq<Move>, between: nat -> seq<Move>)

  ghost predicate LeavesAlone(around: Surroundings, pid: nat) {
    forall k: nat, m | m in around.before(k) + around.between(k) :: !MovesProcess(m, pid)
  }

  ghost predicate Quiet(around: Surroundings) { forall k: nat :: around.before(k) == [] && around.between(k) == [] }

  /** Where a round stands after publishing and acknowledging the messages `sent`. */
  ghost predicate InRound(y: System, y': System, pid: nat, claimed: seq<nat>, sent: seq<nat>, moves: seq<Move>) {
    && y' == Moves(y, moves) && pid in y.processes && pid in y'.processes
    && |sent| <= |claimed| && sent == claimed[..|sent|]
    && y'.processes[pid] == y.processes[pid].(phase := if |sent| == |claimed| then Idle else Sending(claimed[|sent|..]))
    && forall id | id in sent :: id in y'.published
  }

  lemma RoundStarts(y: System, pid: nat, skip: set<nat>)
    requires pid in y.processes && y.processes[pid].phase.Idle?
    ensures var claim := Claim(pid, 100, skip);
            InRound(y, MoveStep(y, claim), pid, ClaimIds(y.store.outbox, y.store.clock, skip, 100), [], [claim])
  {
    var claim, ids := Claim(pid, 100, skip), ClaimIds(y.store.outbox, y.store.clock, skip, 100);
    assert [claim][..0] == [] && Moves(y, [claim]) == MoveStep(y, claim) && ids[0..] == ids;
  }

  lemma RoundGoesOn(y: System, y': System, pid: nat, claimed: seq<nat>, sent: seq<nat>, moves: seq<Move>,
                    more: seq<Move>, next: System)
    requires InRound(y, y', pid, claimed, sent, moves) && |sent| < |claimed|
    requires next == Moves(y', more) && pid in next.processes
    requires var rest := claimed[|sent|..];
             && next.processes[pid] == y'.processes[pid].(phase := if |rest| == 1 then Idle else Sending(rest[1..]))
             && y'.published + {rest[0]} <= next.published
    ensures InRound(y, next, pid, claimed, sent + [claimed[|sent|]], moves + more)
  {
    MovesConcat(y, moves, more);
    assert claimed[|sent|..][1..] == claimed[|sent| + 1..];
  }

  /** When nothing happens in between, the rows of the messages sent, and no others, are marked. */
  ghost predicate Undisturbed(y: System, store: Store, pid: nat, around: Surroundings, claimed: seq<nat>,
                              sent: seq<nat>)
  {
    Quiet(around) ==>
      pid in y.processes &&
      store == y.store.(outbox := AfterRound(y.store.outbox, y.processes[pid].owner, y.store.clock, claimed, sent))
  }

  lemma UndisturbedStarts(y: System, pid: nat, skip: set<nat>, around: Surroundings)
    requires pid in y.processes
    ensures var (store, claimed) := ClaimOutbox(y.store, y.processes[pid].owner, 100, skip);
            Undisturbed(y, store, pid, around, claimed, [])
  {
    var (store, claimed) := ClaimOutbox(y.store, y.processes[pid].owner, 100, skip);
    assert store.outbox == AfterRound(y.store.outbox, y.processes[pid].owner, y.store.clock, claimed, []);
  }

  lemma UndisturbedGoesOn(y: System, store: Store, pid: nat, around: Surroundings, claimed: seq<nat>, sent: seq<nat>,
                          next: Store)
    requires pid in y.processes && Undisturbed(y, store, pid, around, claimed, sent)
    requires |sent| < |claimed| && sent == claimed[..|sent|]
    requires Quiet(around) ==> next == AcknowledgeOutbox(store, y.processes[pid].owner, claimed[|sent|]).0
    ensures Undisturbed(y, next, pid, around, claimed, sent + [claimed[|sent|]])
  {
    AcknowledgeNext(y.store.outbox, y.processes[pid].owner, y.store.clock, claimed, |sent|);
    assert claimed[..|sent| + 1] == sent + [claimed[|sent|]];
  }

  /** A round ends when the list is done, or is given up. */
  lemma RoundEnds(y: System, y': System, pid: nat, claimed: seq<nat>, sent: seq<nat>, moves: seq<Move>)
    requires InRound(y, y', pid, claimed, sent, moves) && y.processes[pid].phase.Idle?
    ensures |sent| == |claimed| ==> y'.processes[pid] == y.processes[pid]
    ensures var failed := MoveStep(y', Fail(pid));
            && failed == Moves(y, moves + [Fail(pid)]) && failed.store == y'.store && failed.published == y'.published
            && pid in failed.processes && failed.processes[pid] == y.processes[pid]
  {
    MovesConcat(y, moves, [Fail(pid)]);
    assert [Fail(pid)][..0] == [];
  }

  /**
   * The body of `dispatch_outbox`: claim, then publish each message and acknowledge it, in
   * order; `working` is how many publishes complete before one raises. Whatever others do
   * meanwhile, the round is a run of the system, so that all that holds of every run holds
   * of it, and exactly the first `working` claimed messages have been published. When
   * nothing happens in between, their rows and no others end up marked, and the rest of the
   * claim stays locked.
   */
  method DispatchRound(db: Db.PlatformDatabase, y: System, pid: nat, skip: set<nat>, working: nat, around: Surroundings)
    returns (y': System, claimed: seq<nat>, sent: seq<nat>, ghost moves: seq<Move>)
    requires db.Snapshot() == y.store && pid in y.processes && y.processes[pid].phase.Idle? && LeavesAlone(around, pid)
    modifies db
    ensures y' == Moves(y, moves) && db.Snapshot() == y'.store
    ensures pid in y'.processes && y'.processes[pid] == y.processes[pid]
    ensures claimed == ClaimIds(y.store.outbox, y.store.clock, skip, 100) && sent == Take(claimed, working)
    ensures forall id | id in sent :: id in y'.published
    ensures Undisturbed(y, db.Snapshot(), pid, around, claimed, sent)
  {
    claimed := db.ClaimOutbox(y.processes[pid].owner, 100, skip);
    y', moves, sent := MoveStep(y, Claim(pid, 100, skip)), [Claim(pid, 100, skip)], [];
    RoundStarts(y, pid, skip);
    UndisturbedStarts(y, pid, skip, around);
    while |sent| < |claimed| && |sent| < working
      invariant |sent| <= working && InRound(y, y', pid, claimed, sent, moves) && db.Snapshot() == y'.store
      invariant Undisturbed(y, y'.store, pid, around, claimed, sent)
    {
      var k := |sent|;
      ghost var more, before := [], y';
      y', more := PublishAndAcknowledge(db, y', pid, around.before(k), around.between(k));
      RoundGoesOn(y, before, pid, claimed, sent, moves, more, y');
      UndisturbedGoesOn(y, before.store, pid, around, claimed, sent, y'.store);
      moves, sent := moves + more, sent + [claimed[k]];
    }
    RoundEnds(y, y', pid, claimed, sent, moves);
    if |sent| < |claimed| { y', moves := MoveStep(y', Fail(pid)), moves + [Fail(pid)]; }
  }
}
