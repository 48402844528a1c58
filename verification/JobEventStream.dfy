/** The `stream()` generator behind GET /jobs/{job_id}/events. */
module JobEventStream {
  import opened Prelude
  import opened PlatformModel
  import opened PlatformRuns
  import opened PlatformLeases
  import Db = PlatformDb
  import R = EventReplay

  /**
   * One turn of the loop: whether the client had gone, the job's committed log when
   * `events` ran, and the job state when `get_job` ran after the page had been sent.
   */
  datatype Turn = Turn(gone: bool, log: seq<Event>, state: JobState)

  datatype Frame = Sse(event: Event) | Keepalive

  function Frames(page: seq<Event>): seq<Frame> {
    seq(|page|, i requires 0 <= i < |page| => Sse(page[i]))
  }

  function Then(frames: seq<Frame>, rest: (seq<Frame>, bool)): (seq<Frame>, bool) {
    (frames + rest.0, rest.1)
  }

  lemma ThenThen(a: seq<Frame>, b: seq<Frame>, rest: (seq<Frame>, bool))
    ensures Then(a, Then(b, rest)) == Then(a + b, rest)
  {
    assert a + (b + rest.0) == (a + b) + rest.0;
  }

  function Tick(idle: nat): seq<Frame> { if idle % 15 == 0 then [Keepalive] else [] }

  /** The generator as a function of its turns; the boolean says it returned because the job had ended. */
  function Stream(turns: seq<Turn>, cursor: nat, idle: nat): (seq<Frame>, bool) {
    if turns == [] || turns[0].gone then ([], false)
    else
      var page := Take(After(turns[0].log, cursor), PAGE_LIMIT);
      if page != [] then
        if Terminal(turns[0].state) then (Frames(page), true)
        else Then(Frames(page), Stream(turns[1..], page[|page| - 1].id, 0))
      else Then(Tick(idle + 1), Stream(turns[1..], cursor, idle + 1))
  }

  /** The loop of the source: `cursor` and `idle` are updated as frames are yielded. */
  method RunStream(turns: seq<Turn>, lastEventId: nat) returns (frames: seq<Frame>, done: bool)
    ensures (frames, done) == Stream(turns, lastEventId, 0)
  {
    var cursor, idle, i := lastEventId, 0, 0;
    frames, done := [], false;
    assert [] + Stream(turns, cursor, idle).0 == Stream(turns, cursor, idle).0;
    assert turns[0..] == turns && Then([], Stream(turns, cursor, idle)) == Stream(turns, cursor, idle);
    while i < |turns| && !turns[i].gone
      invariant 0 <= i <= |turns|
      invariant Stream(turns, lastEventId, 0) == Then(frames, Stream(turns[i..], cursor, idle))
    {
      assert turns[i..][0] == turns[i] && turns[i..][1..] == turns[i + 1..];
      var page := Take(After(turns[i].log, cursor), PAGE_LIMIT);
      if page != [] {
        if Terminal(turns[i].state) {
          return frames + Frames(page), true;
        }
        idle, cursor := 0, page[|page| - 1].id;
        ThenThen(frames, Frames(page), Stream(turns[i + 1..], cursor, idle));
        frames := frames + Frames(page);
      } else {
        idle := idle + 1;
        ThenThen(frames, Tick(idle), Stream(turns[i + 1..], cursor, idle));
        if idle % 15 == 0 {
          frames := frames + [Keepalive];
        } else {
          assert frames + [] == frames;
        }
      }
      i := i + 1;
    }
    assert frames + [] == frames;
  }

  /** The events a client sees in a list of frames. */
  function Sent(frames: seq<Frame>): seq<Event> {
    if frames == [] then []
    else Sent(frames[..|frames| - 1]) + (match frames[|frames| - 1] case Sse(e) => [e] case Keepalive => [])
  }

  lemma {:induction false} SentConcat(a: seq<Frame>, b: seq<Frame>)
    ensures Sent(a + b) == Sent(a) + Sent(b)
  {
    if b == [] {
      assert a + b == a;
    } else {
      SentConcat(a, b[..|b| - 1]);
      assert (a + b)[..|a + b| - 1] == a + b[..|b| - 1];
    }
  }

  lemma {:induction false} SentFrames(page: seq<Event>)
    ensures Sent(Frames(page)) == page
  {
    if page != [] {
      SentFrames(page[..|page| - 1]);
      assert Frames(page)[..|page| - 1] == Frames(page[..|page| - 1]);
    }
  }

  /** Every turn sees a prefix of the job's final log. */
  ghost predicate TurnsOf(turns: seq<Turn>, final: seq<Event>) {
    InIdOrder(final) && forall i | 0 <= i < |turns| :: turns[i].log <= final
  }

  lemma {:induction false} PrefixAfter(log: seq<Event>, final: seq<Event>, cursor: nat)
    requires log <= final
    ensures After(log, cursor) <= After(final, cursor)
    decreases |final|
  {
    if log != final {
      assert log == final[..|final| - 1][..|log|];
      PrefixAfter(log, final[..|final| - 1], cursor);
    }
  }

  /** A page followed by a prefix of what lies after it. */
  lemma PageThenRest(final: seq<Event>, cursor: nat, page: seq<Event>, rest: seq<Frame>)
    requires InIdOrder(final) && page != [] && page <= After(final, cursor)
    requires Sent(rest) <= After(final, page[|page| - 1].id)
    ensures Sent(Frames(page) + rest) <= After(final, cursor)
  {
    R.CursorSplits(final, cursor, |page|);
    SentFrames(page);
    SentConcat(Frames(page), rest);
    assert After(final, cursor) == page + After(final, page[|page| - 1].id);
  }

  /**
   * Whatever the job did meanwhile, one connection sends a prefix of the log after its
   * cursor, in order, without a gap or a repeat.
   */
  lemma {:induction false} StreamIsPrefix(turns: seq<Turn>, cursor: nat, idle: nat, final: seq<Event>)
    requires TurnsOf(turns, final)
    ensures Sent(Stream(turns, cursor, idle).0) <= After(final, cursor)
  {
    if turns != [] && !turns[0].gone {
      var page := Take(After(turns[0].log, cursor), PAGE_LIMIT);
      PrefixAfter(turns[0].log, final, cursor);
      assert page <= After(final, cursor);
      if page != [] {
        var next := page[|page| - 1].id;
        StreamIsPrefix(turns[1..], next, 0, final);
        var rest := if Terminal(turns[0].state) then [] else Stream(turns[1..], next, 0).0;
        assert Stream(turns, cursor, idle).0 == Frames(page) + rest;
        PageThenRest(final, cursor, page, rest);
      } else {
        StreamIsPrefix(turns[1..], cursor, idle + 1, final);
        SentConcat(Tick(idle + 1), Stream(turns[1..], cursor, idle + 1).0);
      }
    }
  }

  /**
   * A client that started from nothing can tell for itself whether it has everything: what
   * it holds is the whole log of a finished job exactly when its own fold has ended.
   */
  lemma ClientKnowsWhenComplete(s: Store, j: JobId, received: seq<Event>)
    requires Reachable(s) && j in s.jobs && Terminal(s.jobs[j].state)
    requires received <= Log(s.events, j)
    ensures received == Log(s.events, j) <==> Replay(received).At? && Terminal(Replay(received).view.state)
  {
    LogIsSound(s, j);
    var log := Log(s.events, j);
    assert log[..|log|] == log;
    if Replay(received).At? && Terminal(Replay(received).view.state) && received != log {
      assert received != [];
      assert received == log[..|received|];
      EndIsLast(log, |received| - 1);
    }
  }

  // ---- what a stream that returns has sent ----

  lemma {:induction false} ReturnedAfterSending(turns: seq<Turn>, cursor: nat, idle: nat)
    requires Stream(turns, cursor, idle).1
    ensures Sent(Stream(turns, cursor, idle).0) != []
  {
    var page := Take(After(turns[0].log, cursor), PAGE_LIMIT);
    SentFrames(page);
    if page == [] {
      ReturnedAfterSending(turns[1..], cursor, idle + 1);
      SentConcat(Tick(idle + 1), Stream(turns[1..], cursor, idle + 1).0);
    } else if !Terminal(turns[0].state) {
      SentConcat(Frames(page), Stream(turns[1..], page[|page| - 1].id, 0).0);
    }
  }

  /** What lies after a cursor ends with the last event. */
  lemma AfterEnds(final: seq<Event>, cursor: nat)
    requires InIdOrder(final) && After(final, cursor) != []
    ensures final != [] && After(final, cursor)[|After(final, cursor)| - 1] == final[|final| - 1]
  {
    var front, last := final[..|final| - 1], final[|final| - 1];
    forall e | e in final ensures e.id <= last.id {
      var k :| 0 <= k < |final| && final[k] == e;
    }
    if last.id <= cursor { R.NothingAfter(final, cursor); }
    assert final == front + [last];
    R.AfterAppend(front, last, cursor);
  }

  /** A prefix of what lies after the cursor is all of it exactly when it reaches the last event. */
  lemma PrefixComplete(final: seq<Event>, cursor: nat, sent: seq<Event>)
    requires InIdOrder(final) && sent != [] && sent <= After(final, cursor)
    ensures sent == After(final, cursor) <==> final != [] && sent[|sent| - 1] == final[|final| - 1]
  {
    var all := After(final, cursor);
    AfterEnds(final, cursor);
    R.AscendingAfter(final, cursor);
    assert all[|sent| - 1] == sent[|sent| - 1];
    assert |sent| < |all| ==> all[|sent| - 1].id < all[|all| - 1].id;
  }

  /** A stream that returned has sent everything exactly when the last event it sent is the last of the log. */
  lemma ReturnedCompleteExactly(turns: seq<Turn>, cursor: nat, idle: nat, final: seq<Event>)
    requires TurnsOf(turns, final) && Stream(turns, cursor, idle).1
    ensures var sent := Sent(Stream(turns, cursor, idle).0);
            sent != [] && (sent == After(final, cursor) <==> final != [] && sent[|sent| - 1] == final[|final| - 1])
  {
    StreamIsPrefix(turns, cursor, idle, final);
    ReturnedAfterSending(turns, cursor, idle);
    PrefixComplete(final, cursor, Sent(Stream(turns, cursor, idle).0));
  }

  /** The event with index `i` ends the job. */
  predicate EndsJob(log: seq<Event>, i: nat)
    requires i < |log|
  {
    Replay(log[..i + 1]).At? && Terminal(Replay(log[..i + 1]).view.state)
  }

  /** The event ends the job whose log this is. */
  predicate IsTheEnd(log: seq<Event>, e: Event) { exists i :: 0 <= i < |log| && log[i] == e && EndsJob(log, i) }

  /** In the log of a finished job that is the last event, and no other. */
  lemma TheEndExactly(s: Store, j: JobId, e: Event)
    requires Reachable(s) && j in s.jobs && Terminal(s.jobs[j].state)
    ensures var log := Log(s.events, j); log != [] && (IsTheEnd(log, e) <==> e == log[|log| - 1])
  {
    var log := Log(s.events, j);
    LogIsSound(s, j);
    assert log[..|log|] == log;
    assert EndsJob(log, |log| - 1);
    forall i | 0 <= i < |log| && EndsJob(log, i) ensures i == |log| - 1 { NothingFollowsTheEnd(s, j, i); }
  }

  /** For a finished job: exactly when the last event sent is the one that ends the job. */
  lemma ReturnedWithTheEndExactly(s: Store, j: JobId, turns: seq<Turn>, cursor: nat, idle: nat)
    requires Reachable(s) && j in s.jobs && Terminal(s.jobs[j].state)
    requires TurnsOf(turns, Log(s.events, j)) && Stream(turns, cursor, idle).1
    ensures var log, sent := Log(s.events, j), Sent(Stream(turns, cursor, idle).0);
            sent != [] && (sent == After(log, cursor) <==> IsTheEnd(log, sent[|sent| - 1]))
  {
    ReturnedCompleteExactly(turns, cursor, idle, Log(s.events, j));
    var sent := Sent(Stream(turns, cursor, idle).0);
    TheEndExactly(s, j, sent[|sent| - 1]);
  }

  /** With the client present and the job finished, a stream returns exactly when there is something left to send. */
  lemma {:induction false} FinishedStreamReturnsExactly(turns: seq<Turn>, cursor: nat, idle: nat, final: seq<Event>)
    requires turns != []
    requires forall i | 0 <= i < |turns| ::
               turns[i].log == final && !turns[i].gone && Terminal(turns[i].state)
    ensures Stream(turns, cursor, idle).1 <==> After(final, cursor) != []
    decreases |turns|
  {
    assert turns[0].log == final;
    if After(final, cursor) == [] && |turns| > 1 { FinishedStreamReturnsExactly(turns[1..], cursor, idle + 1, final); }
  }

  /**
   * A stream may return before the last event: the page and the state are two separate reads.
   * Here the job is submitted, the page is read, the job is cancelled, and then its state is read.
   */
  lemma StreamMayEndEarly() returns (before: Store, after: Store, turn: Turn)
    ensures Reachable(before) && Reachable(after) && after == Run(before, [DoCancel(7, 1)])
    ensures 1 in after.jobs && turn == Turn(false, Log(before.events, 1), after.jobs[1].state)
    ensures TurnsOf([turn], Log(after.events, 1)) && Stream([turn], 0, 0).1
    ensures Sent(Stream([turn], 0, 0).0) == Log(before.events, 1) != After(Log(after.events, 1), 0)
  {
    var submit, cancel := DoSubmit(7, "sha", "the-key!", "request", 1, 1, 1), DoCancel(7, 1);
    before, after := SubmitThenCancel(submit, cancel);
    var queued, cancelled := Event(1, 7, 1, EvQueued), Event(2, 7, 1, EvCancelRequested);
    turn := Turn(false, [queued], Cancelled);
    assert [queued, cancelled] == [queued] + [cancelled] && [queued] == [] + [queued];
    R.AfterAppend([], queued, 0);
    R.AfterAppend([queued], cancelled, 0);
    assert Take([queued], PAGE_LIMIT) == [queued];
    SentFrames([queued]);
    assert [turn][0] == turn && [queued] <= [queued, cancelled];
  }

  lemma SubmitThenCancel(submit: Action, cancel: Action) returns (before: Store, after: Store)
    requires submit == DoSubmit(7, "sha", "the-key!", "request", 1, 1, 1) && cancel == DoCancel(7, 1)
    ensures Reachable(before) && Reachable(after) && after == Run(before, [cancel])
    ensures 1 in after.jobs && after.jobs[1].state == Cancelled
    ensures Log(before.events, 1) == [Event(1, 7, 1, EvQueued)]
    ensures Log(after.events, 1) == [Event(1, 7, 1, EvQueued), Event(2, 7, 1, EvCancelRequested)]
  {
    before := Submitted(submit);
    after := Step(before, cancel);
    CancelledAfter(before, after);
    RunConcat(Empty(0), [submit], [cancel]);
    assert [cancel][..0] == [];
    assert after == Run(Empty(0), [submit] + [cancel]);
  }

  lemma CancelledAfter(before: Store, after: Store)
    requires 1 in before.jobs && before.jobs[1].state == Queued && before.jobs[1].tenant == 7 && before.nextEvent == 2
    requires Log(before.events, 1) == [Event(1, 7, 1, EvQueued)] && after == RequestCancel(before, 7, 1).0
    ensures 1 in after.jobs && after.jobs[1].state == Cancelled
    ensures Log(after.events, 1) == [Event(1, 7, 1, EvQueued), Event(2, 7, 1, EvCancelRequested)]
  {
    FilterAppend(before.events, Event(2, 7, 1, EvCancelRequested), (e: Event) => e.job == 1);
  }

  lemma Submitted(submit: Action) returns (s: Store)
    requires submit == DoSubmit(7, "sha", "the-key!", "request", 1, 1, 1)
    ensures Reachable(s) && s == Run(Empty(0), [submit]) && s.nextEvent == 2
    ensures 1 in s.jobs && s.jobs[1].state == Queued && s.jobs[1].tenant == 7
    ensures Log(s.events, 1) == [Event(1, 7, 1, EvQueued)]
  {
    s := Run(Empty(0), [submit]);
    assert [submit][..0] == [];
    FilterAppend([], Event(1, 7, 1, EvQueued), (e: Event) => e.job == 1);
  }

  /** A client that reconnects with the last event of a finished job is never sent the end of the stream. */
  lemma {:induction false} CaughtUpStreamNeverReturns(turns: seq<Turn>, cursor: nat, idle: nat, final: seq<Event>)
    requires TurnsOf(turns, final) && After(final, cursor) == []
    ensures !Stream(turns, cursor, idle).1 && Sent(Stream(turns, cursor, idle).0) == []
  {
    if turns != [] && !turns[0].gone {
      PrefixAfter(turns[0].log, final, cursor);
      CaughtUpStreamNeverReturns(turns[1..], cursor, idle + 1, final);
      SentConcat(Tick(idle + 1), Stream(turns[1..], cursor, idle + 1).0);
    }
  }

  // ---- that a connected client goes on receiving ----

  function PageAt(turn: Turn, cursor: nat): seq<Event> { Take(After(turn.log, cursor), PAGE_LIMIT) }

  function NextCursor(page: seq<Event>, cursor: nat): nat { if page == [] then cursor else page[|page| - 1].id }

  function NextIdle(page: seq<Event>, idle: nat): nat { if page == [] then idle + 1 else 0 }

  /** One turn with the client there: its page is sent, and the stream ends or goes on behind it. */
  lemma OneTurn(turns: seq<Turn>, cursor: nat, idle: nat)
    requires turns != [] && !turns[0].gone
    ensures var page := PageAt(turns[0], cursor);
            var whole, rest := Stream(turns, cursor, idle),
                               Stream(turns[1..], NextCursor(page, cursor), NextIdle(page, idle));
            if page != [] && Terminal(turns[0].state) then Sent(whole.0) == page && whole.1
            else Sent(whole.0) == page + Sent(rest.0) && whole.1 == rest.1
  {
    var page := PageAt(turns[0], cursor);
    var rest := Stream(turns[1..], NextCursor(page, cursor), NextIdle(page, idle));
    SentFrames(page);
    if page == [] { SentConcat(Tick(idle + 1), rest.0); } else { SentConcat(Frames(page), rest.0); }
  }

  /** The client stays, and the job has not ended, through the first `n` turns; the last of them may find it ended. */
  ghost predicate GoesOn(turns: seq<Turn>, n: nat) {
    && n <= |turns|
    && (forall k | 0 <= k < n :: !turns[k].gone)
    && (forall k | 0 <= k < n - 1 :: !Terminal(turns[k].state))
  }

  /** Later turns see longer prefixes of the final log. */
  ghost predicate Growing(turns: seq<Turn>, final: seq<Event>) {
    TurnsOf(turns, final) && forall i, k | 0 <= i <= k < |turns| :: turns[i].log <= turns[k].log
  }

  /** How many events turn `i` would find waiting behind the cursor. */
  function Waiting(turns: seq<Turn>, cursor: nat, i: nat): nat
    requires i < |turns|
  {
    |After(turns[i].log, cursor)|
  }

  /** A page sent at the first turn no longer waits at any turn. */
  lemma PageLeavesQueue(turns: seq<Turn>, cursor: nat, i: nat, final: seq<Event>)
    requires Growing(turns, final) && i < |turns|
    ensures var page := PageAt(turns[0], cursor);
            Waiting(turns, cursor, i) == |page| + Waiting(turns, NextCursor(page, cursor), i)
    ensures |PageAt(turns[0], cursor)| == PAGE_LIMIT || Waiting(turns, cursor, 0) == |PageAt(turns[0], cursor)|
  {
    var page, log := PageAt(turns[0], cursor), turns[i].log;
    PrefixAfter(turns[0].log, log, cursor);
    if page != [] {
      assert log == final[..|log|];
      assert InIdOrder(log) by {
        assert forall j, k | 0 <= j < k < |log| :: log[j] == final[j] && log[k] == final[k];
      }
      R.CursorSplits(log, cursor, |page|);
    }
  }

  lemma MoreWaitsLater(turns: seq<Turn>, cursor: nat, i: nat, k: nat, final: seq<Event>)
    requires Growing(turns, final) && i <= k < |turns|
    ensures Waiting(turns, cursor, i) <= Waiting(turns, cursor, k)
  {
    PrefixAfter(turns[i].log, turns[k].log, cursor);
  }

  function Least(a: nat, b: nat): nat { if a < b then a else b }

  /**
   * What is committed when turn `i` reads is delivered: by the end of turn `n - 1` all of it
   * has been sent, or every page from turn `i` on was full.
   */
  lemma {:induction false} CommittedIsDelivered(turns: seq<Turn>, cursor: nat, idle: nat, final: seq<Event>, i: nat,
                                                n: nat)
    requires Growing(turns, final) && GoesOn(turns, n) && i < n
    ensures |Sent(Stream(turns, cursor, idle).0)| >= Least(Waiting(turns, cursor, i), PAGE_LIMIT * (n - i))
    decreases n
  {
    var page := PageAt(turns[0], cursor);
    var next, rest := NextCursor(page, cursor), turns[1..];
    OneTurn(turns, cursor, idle);
    PageLeavesQueue(turns, cursor, i, final);
    if n > 1 {
      var j := if i == 0 then 0 else i - 1;
      CommittedIsDelivered(rest, next, NextIdle(page, idle), final, j, n - 1);
      MoreWaitsLater(turns, next, i, j + 1, final);
    }
  }

  lemma {:induction false} TurnsBoundSent(turns: seq<Turn>, cursor: nat, idle: nat)
    ensures |Sent(Stream(turns, cursor, idle).0)| <= PAGE_LIMIT * |turns|
  {
    if turns != [] && !turns[0].gone {
      var page := PageAt(turns[0], cursor);
      OneTurn(turns, cursor, idle);
      TurnsBoundSent(turns[1..], NextCursor(page, cursor), NextIdle(page, idle));
    }
  }

  /** On a log that stands still, every turn sends the next full page until nothing is left. */
  lemma StandingLogIsSent(turns: seq<Turn>, cursor: nat, idle: nat, final: seq<Event>)
    requires InIdOrder(final) && GoesOn(turns, |turns|) && forall i | 0 <= i < |turns| :: turns[i].log == final
    ensures Sent(Stream(turns, cursor, idle).0) == Take(After(final, cursor), PAGE_LIMIT * |turns|)
  {
    StreamIsPrefix(turns, cursor, idle, final);
    TurnsBoundSent(turns, cursor, idle);
    if turns != [] { CommittedIsDelivered(turns, cursor, idle, final, 0, |turns|); }
  }

  /** The first turn finds at most a page waiting, and between two turns at most a page is committed. */
  ghost predicate FitsOnPages(turns: seq<Turn>, cursor: nat) {
    && (turns != [] ==> Waiting(turns, cursor, 0) <= PAGE_LIMIT)
    && (forall i, k | 0 <= i < k == i + 1 < |turns| ::
          Waiting(turns, cursor, k) <= Waiting(turns, cursor, i) + PAGE_LIMIT)
  }

  /** Behind the first page the later turns still fit. */
  lemma FitsBehind(turns: seq<Turn>, cursor: nat, final: seq<Event>)
    requires |turns| > 1 && Growing(turns, final) && FitsOnPages(turns, cursor)
    ensures var page := PageAt(turns[0], cursor);
            var next, last := NextCursor(page, cursor), |turns| - 1;
            && FitsOnPages(turns[1..], next)
            && Waiting(turns, cursor, last) == |page| + Waiting(turns[1..], next, last - 1)
  {
    var page := PageAt(turns[0], cursor);
    var next := NextCursor(page, cursor);
    PageLeavesQueue(turns, cursor, 1, final);
    PageLeavesQueue(turns, cursor, |turns| - 1, final);
    forall i, k | 0 <= i < k == i + 1 < |turns| - 1
      ensures Waiting(turns[1..], next, k) <= Waiting(turns[1..], next, i) + PAGE_LIMIT
    {
      PageLeavesQueue(turns, cursor, k, final);
      PageLeavesQueue(turns, cursor, k + 1, final);
      assert Waiting(turns, cursor, k + 1) <= Waiting(turns, cursor, k) + PAGE_LIMIT;
    }
    assert Waiting(turns, cursor, 1) <= Waiting(turns, cursor, 0) + PAGE_LIMIT;
  }

  lemma {:induction false} KeepsUp(turns: seq<Turn>, cursor: nat, idle: nat, final: seq<Event>)
    requires turns != [] && Growing(turns, final) && GoesOn(turns, |turns|) && FitsOnPages(turns, cursor)
    ensures |Sent(Stream(turns, cursor, idle).0)| >= Waiting(turns, cursor, |turns| - 1)
    decreases |turns|
  {
    var page := PageAt(turns[0], cursor);
    OneTurn(turns, cursor, idle);
    if |turns| > 1 {
      FitsBehind(turns, cursor, final);
      KeepsUp(turns[1..], NextCursor(page, cursor), NextIdle(page, idle), final);
    }
  }

  /** A client that stays, and is never more than a page behind, is sent exactly what the last turn sees. */
  lemma KeptUpClientHasAll(turns: seq<Turn>, cursor: nat, idle: nat, final: seq<Event>)
    requires turns != [] && Growing(turns, final) && GoesOn(turns, |turns|) && FitsOnPages(turns, cursor)
    ensures Sent(Stream(turns, cursor, idle).0) == After(turns[|turns| - 1].log, cursor)
  {
    var last := turns[|turns| - 1].log;
    assert InIdOrder(last) by {
      assert forall i, k | 0 <= i < k < |last| :: last[i] == final[i] && last[k] == final[k];
    }
    StreamIsPrefix(turns, cursor, idle, last);
    KeepsUp(turns, cursor, idle, final);
  }

  /** A stream says that the job has ended only after a turn that found it so, with the client still there. */
  lemma {:induction false} ReturnsOnlyAtTheEnd(turns: seq<Turn>, cursor: nat, idle: nat) returns (n: nat)
    requires Stream(turns, cursor, idle).1
    ensures n < |turns| && Terminal(turns[n].state) && forall k | 0 <= k <= n :: !turns[k].gone
  {
    var page := PageAt(turns[0], cursor);
    if page != [] && Terminal(turns[0].state) {
      n := 0;
    } else {
      OneTurn(turns, cursor, idle);
      n := ReturnsOnlyAtTheEnd(turns[1..], NextCursor(page, cursor), NextIdle(page, idle));
      n := n + 1;
    }
  }

  /** A client with nothing to receive gets a keepalive every fifteenth turn, and nothing else. */
  lemma {:induction false} IdleClientIsKeptAlive(turns: seq<Turn>, cursor: nat, idle: nat)
    requires forall i | 0 <= i < |turns| :: !turns[i].gone && After(turns[i].log, cursor) == []
    ensures var frames := Stream(turns, cursor, idle).0;
            |frames| == (idle + |turns|) / 15 - idle / 15 && forall f | f in frames :: f.Keepalive?
  {
    if turns != [] { IdleClientIsKeptAlive(turns[1..], cursor, idle + 1); }
  }

  // ---- turns of a run ----

  lemma StepAppendsEvents(s: Store, a: Action)
    ensures s.events <= Step(s, a).events
  {
    match a
    case DoSubmit(_, _, _, _, _, _, _) =>
    case _ =>
  }

  lemma {:induction false} EventsAreAppended(s: Store, later: seq<Action>)
    ensures s.events <= Run(s, later).events
  {
    if later != [] {
      var before := Run(s, later[..|later| - 1]);
      EventsAreAppended(s, later[..|later| - 1]);
      StepAppendsEvents(before, later[|later| - 1]);
    }
  }

  lemma LogsGrow(s: Store, later: seq<Action>, j: JobId)
    ensures Log(s.events, j) <= Log(Run(s, later).events, j)
  {
    var all := Run(s, later).events;
    EventsAreAppended(s, later);
    assert all == s.events + all[|s.events|..];
    FilterConcat(s.events, all[|s.events|..], (e: Event) => e.job == j);
  }

  /** The log of job `j` after the first `n` steps of a run. */
  function LogAt(start: Time, actions: seq<Action>, j: JobId, n: nat): seq<Event>
    requires n <= |actions|
  {
    Log(Run(Empty(start), actions[..n]).events, j)
  }

  lemma LaterLogsAreLonger(start: Time, actions: seq<Action>, j: JobId, n: nat, m: nat)
    requires n <= m <= |actions|
    ensures LogAt(start, actions, j, n) <= LogAt(start, actions, j, m)
  {
    assert actions[..m] == actions[..n] + actions[n..m];
    RunConcat(Empty(start), actions[..n], actions[n..m]);
    LogsGrow(Run(Empty(start), actions[..n]), actions[n..m], j);
  }

  /** Whatever run of the protocol goes on meanwhile, the turns of a connection see growing prefixes of its last log. */
  lemma TurnsOfRunGrow(start: Time, actions: seq<Action>, j: JobId, turns: seq<Turn>, at: seq<nat>)
    requires |at| == |turns| && forall i | 0 <= i < |at| :: at[i] <= |actions|
    requires forall i, k | 0 <= i <= k < |at| :: at[i] <= at[k]
    requires forall i | 0 <= i < |turns| :: turns[i].log == LogAt(start, actions, j, at[i])
    ensures Growing(turns, LogAt(start, actions, j, |actions|))
  {
    RunsKeepInv(start, actions[..|actions|]);
    Db.FilterInOrder(Run(Empty(start), actions[..|actions|]).events, (e: Event) => e.job == j);
    forall i, k | 0 <= i <= k < |turns| ensures turns[i].log <= turns[k].log {
      LaterLogsAreLonger(start, actions, j, at[i], at[k]);
    }
    forall i | 0 <= i < |turns| ensures turns[i].log <= LogAt(start, actions, j, |actions|) {
      LaterLogsAreLonger(start, actions, j, at[i], |actions|);
    }
  }
}
