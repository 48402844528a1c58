/** Replaying a job's events over SSE while transactions interleave. */
module EventReplay {
  // Here a transaction is not atomic: it locks the job row, draws an event number, and commits (or
  // rolls back) later. Readers fetch bounded pages past a cursor, lose the connection at any event,
  // and reconnect with the last event id they received.

  import opened Prelude
  import opened PlatformModel
  import opened PlatformRuns
  import opened PlatformLeases

  datatype Transaction = Transaction(job: JobId, body: Body, number: Option<nat>)

  /** `cursor` is the last event id the client received, or the one it first connected with. */
  datatype Reader = Reader(job: JobId, start: nat, cursor: nat, received: seq<Event>)

  /** `committed` is in commit order; event numbers come from one sequence for all jobs. */
  datatype World = World(next: nat, open: map<nat, Transaction>, committed: seq<Event>, readers: map<nat, Reader>)

  datatype Act =
    | Begin(txn: nat, job: JobId, body: Body)
    | Draw(txn: nat)
    | Commit(txn: nat)
    | Rollback(txn: nat)
    | Connect(reader: nat, job: JobId, start: nat)
    | Fetch(reader: nat, limit: int, delivered: nat)

  function World0(): World { World(1, map[], [], map[]) }

  predicate Locked(w: World, j: JobId) {
    exists t | t in w.open :: w.open[t].job == j
  }

  function Remove(open: map<nat, Transaction>, t: nat): map<nat, Transaction> { open - {t} }

  /** `Fetch` runs one `events` query; the client gets the first `delivered` rows of the page. */
  function ActStep(w: World, a: Act): World {
    match a
    case Begin(t, j, body) =>
      if t in w.open || Locked(w, j) then w else w.(open := w.open[t := Transaction(j, body, None)])
    case Draw(t) =>
      if t in w.open && w.open[t].number.None?
      then w.(open := w.open[t := w.open[t].(number := Some(w.next))], next := w.next + 1) else w
    case Commit(t) =>
      if t in w.open && w.open[t].number.Some?
      then w.(open := Remove(w.open, t),
              committed := w.committed + [Event(w.open[t].number.value, 0, w.open[t].job, w.open[t].body)])
      else w
    case Rollback(t) => w.(open := Remove(w.open, t))
    case Connect(r, j, start) => w.(readers := w.readers[r := Reader(j, start, start, [])])
    case Fetch(r, limit, delivered) =>
      if r in w.readers then
        var page := Take(After(Log(w.committed, w.readers[r].job), w.readers[r].cursor), Clamp(limit));
        w.(readers := w.readers[r := Deliver(w.readers[r], Take(page, delivered))])
      else w
  }

  function Deliver(r: Reader, page: seq<Event>): Reader {
    if page == [] then r else r.(cursor := page[|page| - 1].id, received := r.received + page)
  }

  function Acts(w: World, acts: seq<Act>): World {
    if acts == [] then w else ActStep(Acts(w, acts[..|acts| - 1]), acts[|acts| - 1])
  }

  // ---- filtering by cursor ----

  lemma AfterAppend(log: seq<Event>, e: Event, cursor: nat)
    ensures After(log + [e], cursor) == After(log, cursor) + (if e.id > cursor then [e] else [])
  {
  }

  lemma {:induction false} AscendingAfter(log: seq<Event>, cursor: nat)
    requires InIdOrder(log)
    ensures InIdOrder(After(log, cursor))
    ensures forall e | e in After(log, cursor) :: e in log && e.id > cursor
  {
    if log != [] {
      var front := log[..|log| - 1];
      AscendingAfter(front, cursor);
      forall e | e in After(front, cursor) ensures e.id < log[|log| - 1].id {
        var k :| 0 <= k < |front| && front[k] == e;
      }
    }
  }

  /** A new event lies after every cursor that points into the log before it. */
  lemma CursorInFront(front: seq<Event>, last: Event, cursor: nat, d: nat)
    requires InIdOrder(front + [last]) && 0 < d <= |After(front, cursor)|
    requires After(front, After(front, cursor)[d - 1].id) == After(front, cursor)[d..]
    ensures After(front + [last], After(front + [last], cursor)[d - 1].id) == After(front + [last], cursor)[d..]
  {
    var mark := After(front, cursor)[d - 1];
    assert InIdOrder(front) by { assert forall i | 0 <= i < |front| :: (front + [last])[i] == front[i]; }
    AscendingAfter(front, cursor);
    assert mark in front && mark.id > cursor;
    var k :| 0 <= k < |front| && front[k] == mark;
    assert (front + [last])[k].id < (front + [last])[|front|].id;
    AfterAppend(front, last, cursor);
    AfterAppend(front, last, mark.id);
  }

  lemma CursorAtEnd(front: seq<Event>, last: Event, cursor: nat)
    requires InIdOrder(front + [last]) && last.id > cursor
    ensures After(front + [last], cursor)[|After(front, cursor)|..] == [last]
    ensures After(front + [last], last.id) == []
  {
    AfterAppend(front, last, cursor);
    forall e | e in front + [last] ensures e.id <= last.id {
      var k :| 0 <= k < |front + [last]| && (front + [last])[k] == e;
    }
    NothingAfter(front + [last], last.id);
  }

  /** Fetching past the last delivered id returns exactly what was not delivered. */
  lemma {:induction false} CursorSplits(log: seq<Event>, cursor: nat, d: nat)
    requires InIdOrder(log) && 0 < d <= |After(log, cursor)|
    ensures After(log, After(log, cursor)[d - 1].id) == After(log, cursor)[d..]
  {
    var last, front := log[|log| - 1], log[..|log| - 1];
    assert log == front + [last];
    AfterAppend(front, last, cursor);
    if d <= |After(front, cursor)| {
      CursorSplits(front, cursor, d);
      CursorInFront(front, last, cursor, d);
    } else {
      CursorAtEnd(front, last, cursor);
    }
  }

  lemma {:induction false} NothingAfter(log: seq<Event>, cursor: nat)
    requires forall e | e in log :: e.id <= cursor
    ensures After(log, cursor) == []
  {
    if log != [] {
      NothingAfter(log[..|log| - 1], cursor);
    }
  }

  /**
   * In every reachable state the rows `events` returns to the tenant of a job are the first
   * ones of the job's log after the cursor: its tenant filter drops nothing, and other
   * tenants get nothing.
   */
  lemma PageIsLogAfter(s: Store, tenant: Tenant, j: JobId, cursor: nat, limit: int)
    requires Reachable(s)
    ensures InIdOrder(s.events)
    ensures Page(s, tenant, j, cursor, limit) ==
            if j in s.jobs && s.jobs[j].tenant == tenant
            then Take(After(Log(s.events, j), cursor), Clamp(limit)) else []
  {
    ReachableInv(s);
    var ofJob, past, wanted := (e: Event) => e.job == j, (e: Event) => e.id > cursor, WantedBy(tenant, j, cursor);
    if j in s.jobs && s.jobs[j].tenant == tenant {
      FilterTwice(s.events, ofJob, past, wanted);
    } else {
      forall e | e in s.events ensures !wanted(e) {}
      FilterNone(s.events, wanted);
    }
  }

  lemma {:induction false} FilterNone<T>(s: seq<T>, keep: T -> bool)
    requires forall x | x in s :: !keep(x)
    ensures Filter(s, keep) == []
  {
    if s != [] { FilterNone(s[..|s| - 1], keep); }
  }

  // ---- the invariant ----

  /** A drawn number is above every committed number of its own job: nobody else held the row. */
  ghost predicate NumbersOk(w: World) {
    && (forall j :: InIdOrder(Log(w.committed, j)))
    && (forall e | e in w.committed :: e.id < w.next)
    && (forall t | t in w.open && w.open[t].number.Some? :: w.open[t].number.value < w.next)
    && (forall t, e | t in w.open && w.open[t].number.Some? && e in w.committed && e.job == w.open[t].job ::
          e.id < w.open[t].number.value)
    && (forall t, u | t in w.open && u in w.open && t != u :: w.open[t].job != w.open[u].job)
  }

  ghost predicate ReaderOk(w: World, r: Reader) {
    && r.received + After(Log(w.committed, r.job), r.cursor) == After(Log(w.committed, r.job), r.start)
    && (r.cursor == r.start ||
        (r.cursor > r.start && exists e :: e in w.committed && e.job == r.job && e.id == r.cursor))
  }

  ghost predicate ReadersOk(w: World) {
    forall r | r in w.readers :: ReaderOk(w, w.readers[r])
  }

  lemma LogMember(events: seq<Event>, j: JobId, e: Event)
    ensures e in Log(events, j) <==> e in events && e.job == j
  {
    FilterMember(events, (x: Event) => x.job == j, e);
  }

  lemma CommitKeepsNumbers(w: World, t: nat, e: Event, w': World)
    requires NumbersOk(w) && t in w.open && w.open[t].number.Some?
    requires e == Event(w.open[t].number.value, 0, w.open[t].job, w.open[t].body)
    requires w' == w.(open := Remove(w.open, t), committed := w.committed + [e])
    ensures NumbersOk(w')
  {
    forall j ensures InIdOrder(Log(w'.committed, j)) {
      assert InIdOrder(Log(w.committed, j));
      forall x | x in Log(w.committed, j) && j == e.job ensures x.id < e.id { LogMember(w.committed, j, x); }
    }
  }

  lemma CommitKeepsReader(w: World, t: nat, e: Event, r: Reader, w': World)
    requires NumbersOk(w) && t in w.open && w.open[t].number.Some? && ReaderOk(w, r)
    requires e == Event(w.open[t].number.value, 0, w.open[t].job, w.open[t].body)
    requires w' == w.(open := Remove(w.open, t), committed := w.committed + [e])
    ensures ReaderOk(w', r)
  {
    if r.cursor != r.start {
      var x :| x in w.committed && x.job == r.job && x.id == r.cursor;
      assert x in w'.committed;
    }
    if e.job == r.job {
    } else {
      assert Log(w'.committed, r.job) == Log(w.committed, r.job);
    }
  }

  lemma PageArrives(log: seq<Event>, received: seq<Event>, cursor: nat, start: nat, page: seq<Event>)
    requires InIdOrder(log) && received + After(log, cursor) == After(log, start)
    requires page != [] && page <= After(log, cursor)
    ensures (received + page) + After(log, page[|page| - 1].id) == After(log, start)
    ensures page[|page| - 1] in log && page[|page| - 1].id > cursor
  {
    var all := After(log, cursor);
    AscendingAfter(log, cursor);
    CursorSplits(log, cursor, |page|);
    assert page[|page| - 1] == all[|page| - 1] && all[|page| - 1] in all;
    assert page + all[|page|..] == all;
    assert (received + page) + all[|page|..] == received + (page + all[|page|..]);
  }

  lemma FetchKeepsReader(w: World, r: Reader, page: seq<Event>)
    requires NumbersOk(w) && ReaderOk(w, r)
    requires page <= After(Log(w.committed, r.job), r.cursor)
    ensures ReaderOk(w, Deliver(r, page))
  {
    if page != [] {
      assert InIdOrder(Log(w.committed, r.job));
      PageArrives(Log(w.committed, r.job), r.received, r.cursor, r.start, page);
      LogMember(w.committed, r.job, page[|page| - 1]);
    }
  }

  lemma ActKeepsNumbers(w: World, a: Act, w': World)
    requires NumbersOk(w) && w' == ActStep(w, a)
    ensures NumbersOk(w')
  {
    if a.Commit? && a.txn in w.open && w.open[a.txn].number.Some? {
      CommitKeepsNumbers(w, a.txn, w'.committed[|w.committed|], w');
    }
  }

  lemma CommitKeepsReaders(w: World, t: nat, e: Event, w': World)
    requires NumbersOk(w) && ReadersOk(w) && t in w.open && w.open[t].number.Some?
    requires e == Event(w.open[t].number.value, 0, w.open[t].job, w.open[t].body)
    requires w' == w.(open := Remove(w.open, t), committed := w.committed + [e])
    ensures ReadersOk(w')
  {
    forall r | r in w'.readers ensures ReaderOk(w', w'.readers[r]) {
      CommitKeepsReader(w, t, e, w.readers[r], w');
    }
  }

  lemma NewReaderKeepsReaders(w: World, r: nat, reader: Reader, w': World)
    requires ReadersOk(w) && ReaderOk(w, reader) && w' == w.(readers := w.readers[r := reader])
    ensures ReadersOk(w')
  {
  }

  lemma SameLogKeepsReaders(w: World, w': World)
    requires ReadersOk(w) && w'.committed == w.committed && w'.readers == w.readers
    ensures ReadersOk(w')
  {
    forall r | r in w'.readers ensures ReaderOk(w', w'.readers[r]) {
      assert ReaderOk(w, w.readers[r]);
    }
  }

  lemma FetchKeepsReaders(w: World, r: nat, page: seq<Event>, w': World)
    requires NumbersOk(w) && ReadersOk(w) && r in w.readers
    requires page <= After(Log(w.committed, w.readers[r].job), w.readers[r].cursor)
    requires w' == w.(readers := w.readers[r := Deliver(w.readers[r], page)])
    ensures ReadersOk(w')
  {
    FetchKeepsReader(w, w.readers[r], page);
    NewReaderKeepsReaders(w, r, Deliver(w.readers[r], page), w');
  }

  lemma ActKeepsReaders(w: World, a: Act, w': World)
    requires NumbersOk(w) && ReadersOk(w) && w' == ActStep(w, a)
    ensures ReadersOk(w')
  {
    match a
    case Begin(_, _, _) => SameLogKeepsReaders(w, w');
    case Draw(_) => SameLogKeepsReaders(w, w');
    case Rollback(_) => SameLogKeepsReaders(w, w');
    case Commit(t) =>
      if t in w.open && w.open[t].number.Some? {
        CommitKeepsReaders(w, t, Event(w.open[t].number.value, 0, w.open[t].job, w.open[t].body), w');
      }
    case Connect(r, j, start) => NewReaderKeepsReaders(w, r, Reader(j, start, start, []), w');
    case Fetch(r, limit, delivered) =>
      if r in w.readers {
        var page := Take(After(Log(w.committed, w.readers[r].job), w.readers[r].cursor), Clamp(limit));
        FetchKeepsReaders(w, r, Take(page, delivered), w');
      }
  }

  lemma {:induction false} ActsKeepInv(acts: seq<Act>)
    ensures NumbersOk(Acts(World0(), acts)) && ReadersOk(Acts(World0(), acts))
  {
    if acts != [] {
      var w := Acts(World0(), acts[..|acts| - 1]);
      ActsKeepInv(acts[..|acts| - 1]);
      ActKeepsNumbers(w, acts[|acts| - 1], Acts(World0(), acts));
      ActKeepsReaders(w, acts[|acts| - 1], Acts(World0(), acts));
    } else {
      forall j ensures InIdOrder(Log([], j)) {}
    }
  }

  /**
   * Over every interleaving of writers and reconnecting readers: what a client has received
   * so far, followed by what a fetch past its cursor would return, is the job's whole log
   * after the cursor it first gave. Nothing is skipped, repeated or reordered.
   */
  lemma GapFreeReplay(acts: seq<Act>, r: nat)
    requires r in Acts(World0(), acts).readers
    ensures var w := Acts(World0(), acts); var reader := w.readers[r];
            reader.received + After(Log(w.committed, reader.job), reader.cursor)
            == After(Log(w.committed, reader.job), reader.start)
    ensures InIdOrder(Log(Acts(World0(), acts).committed, Acts(World0(), acts).readers[r].job))
  {
    ActsKeepInv(acts);
  }

  /** The row lock is what makes this true: across jobs, numbers can commit out of order. */
  lemma AcrossJobsOrderFails()
    ensures exists acts :: !InIdOrder(Acts(World0(), acts).committed)
  {
    var a0 := [Begin(0, 0, EvQueued)];
    var a1 := a0 + [Draw(0)];
    var a2 := a1 + [Begin(1, 1, EvQueued)];
    var a3 := a2 + [Draw(1)];
    var a4 := a3 + [Commit(1)];
    var a5 := a4 + [Commit(0)];
    assert a1[..1] == a0 && a2[..2] == a1 && a3[..3] == a2 && a4[..4] == a3 && a5[..5] == a4;
    var w0 := Acts(World0(), a0);
    assert a0[..0] == [];
    assert w0.open == map[0 := Transaction(0, EvQueued, None)];
    var w2 := Acts(World0(), a2);
    assert !Locked(Acts(World0(), a1), 1);
    assert w2.open == map[0 := Transaction(0, EvQueued, Some(1)), 1 := Transaction(1, EvQueued, None)];
    assert Acts(World0(), a4).committed == [Event(2, 0, 1, EvQueued)];
    assert Acts(World0(), a5).committed == [Event(2, 0, 1, EvQueued), Event(1, 0, 0, EvQueued)];
    assert Acts(World0(), a5).committed[0].id > Acts(World0(), a5).committed[1].id;
  }

  // ---- order across jobs ----

  predicate Drawn(w: World, t: nat) { t in w.open && w.open[t].number.Some? }

  /** Committed numbers ascend, and every number drawn by an open transaction is above them. */
  ghost predicate OrderedSoFar(w: World) {
    && InIdOrder(w.committed)
    && forall t, e | Drawn(w, t) && e in w.committed :: e.id < w.open[t].number.value
  }

  ghost predicate OneDrawn(w: World) { forall t, u | Drawn(w, t) && Drawn(w, u) :: t == u }

  function Commits(ts: seq<nat>): seq<Act> { seq(|ts|, i requires 0 <= i < |ts| => Commit(ts[i])) }

  ghost predicate CommitsKeepOrder(w: World) { forall ts: seq<nat> :: InIdOrder(Acts(w, Commits(ts)).committed) }

  lemma {:induction false} OneDrawnKeepsOrder(w: World, ts: seq<nat>)
    requires OrderedSoFar(w) && OneDrawn(w)
    ensures OrderedSoFar(Acts(w, Commits(ts))) && OneDrawn(Acts(w, Commits(ts)))
  {
    if ts != [] {
      var front, t := ts[..|ts| - 1], ts[|ts| - 1];
      OneDrawnKeepsOrder(w, front);
      assert Commits(ts)[..|ts| - 1] == Commits(front);
      CommitOnlyDrawn(Acts(w, Commits(front)), t);
    }
  }

  lemma CommitOnlyDrawn(w: World, t: nat)
    requires OrderedSoFar(w) && OneDrawn(w)
    ensures OrderedSoFar(ActStep(w, Commit(t))) && OneDrawn(ActStep(w, Commit(t)))
  {
    var w' := ActStep(w, Commit(t));
    assert forall u | Drawn(w', u) :: Drawn(w, u);
    if Drawn(w, t) { assert forall u :: !Drawn(w', u); }
  }

  /** Two open transactions with drawn numbers, the higher one committed first. */
  lemma TwoDrawnBreakOrder(w: World, t: nat, u: nat)
    requires t != u && Drawn(w, t) && Drawn(w, u) && w.open[t].number.value <= w.open[u].number.value
    ensures !InIdOrder(Acts(w, Commits([u, t])).committed)
  {
    var w1, w2 := Acts(w, Commits([u])), Acts(w, Commits([u, t]));
    assert Commits([u])[..0] == [] && Commits([u, t])[..1] == Commits([u]);
    assert w1 == ActStep(Acts(w, []), Commit(u)) && w2 == ActStep(w1, Commit(t));
    assert w1.open == Remove(w.open, u);
    assert t in w1.open;
    var n := |w.committed|;
    assert w2.committed[n].id >= w2.committed[n + 1].id;
  }

  /** A drawn number that is not above all committed ones breaks the order when it is committed. */
  lemma LateDrawnBreaksOrder(w: World, t: nat, k: nat)
    requires Drawn(w, t) && k < |w.committed| && w.open[t].number.value <= w.committed[k].id
    ensures !InIdOrder(Acts(w, Commits([t])).committed)
  {
    var w' := Acts(w, Commits([t]));
    assert Commits([t])[..0] == [];
    assert w' == ActStep(Acts(w, []), Commit(t));
    assert w'.committed[k].id >= w'.committed[|w.committed|].id;
  }

  lemma KeptOrderIsOrdered(w: World)
    requires CommitsKeepOrder(w)
    ensures OrderedSoFar(w)
  {
    assert Commits([]) == [] && Acts(w, Commits([])).committed == w.committed;
    forall t, k | Drawn(w, t) && 0 <= k < |w.committed| ensures w.committed[k].id < w.open[t].number.value {
      if w.open[t].number.value <= w.committed[k].id { LateDrawnBreaksOrder(w, t, k); }
    }
  }

  /**
   * However the open transactions commit, the numbers ascend across jobs exactly when they do
   * so far, below all drawn ones, and at most one number is drawn.
   */
  lemma AcrossJobsOrderExactly(w: World)
    ensures CommitsKeepOrder(w) <==> OrderedSoFar(w) && OneDrawn(w)
  {
    if OrderedSoFar(w) && OneDrawn(w) {
      forall ts: seq<nat> ensures InIdOrder(Acts(w, Commits(ts)).committed) { OneDrawnKeepsOrder(w, ts); }
    }
    if CommitsKeepOrder(w) {
      KeptOrderIsOrdered(w);
      forall t, u | Drawn(w, t) && Drawn(w, u) ensures t == u {
        if t != u && w.open[t].number.value <= w.open[u].number.value { TwoDrawnBreakOrder(w, t, u); }
        if t != u && w.open[u].number.value <= w.open[t].number.value { TwoDrawnBreakOrder(w, u, t); }
      }
    }
  }
}
