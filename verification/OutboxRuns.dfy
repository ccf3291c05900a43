/** Whole runs of one outbox: saves by business transactions, the database clock,
    and polls that dispatch in any order and then commit or roll back. */
module OutboxRuns {
  import opened Basics
  import opened OutboxStore
  import Outbox
  import WorkerPool

  /** A poll: its transaction time, the rows it listed and the outcomes so far. */
  datatype Poll = Poll(number: nat, now: int, listed: seq<nat>, results: map<nat, bool>)
  {
    function Succeeded(): set<nat> {
      set i | i in results && results[i]
    }
  }

  datatype LogEntry = LogEntry(poll: nat, id: nat, ok: bool, at: int)

  /** `history` keeps the committed polls, `log` every dispatch ever made. */
  datatype System = System(
    rows: seq<Row>,
    clock: int,
    begun: nat,
    poll: Option<Poll>,
    history: seq<Poll>,
    log: seq<LogEntry>
  )

  datatype Event =
    | Save(row: Row)
    | Tick(to: int)
    | Begin(listed: seq<nat>)
    | Dispatch(id: nat, ok: bool)
    | Commit(at: int)
    | Rollback

  ghost predicate Enabled(s: System, e: Event) {
    match e
    case Save(row) => row.retryCount == 0 && row.sentAt == None
    case Tick(to) => s.clock <= to
    case Begin(listed) => s.poll == None && IsDueListing(s.rows, s.clock, OUTBOX_BATCH_SIZE, listed)
    case Dispatch(id, _) => s.poll.Some? && id in s.poll.value.listed && id !in s.poll.value.results
    case Commit(_) =>
      && s.poll.Some?
      && (forall id :: id in s.poll.value.listed ==> id in s.poll.value.results && id < |s.rows|)
    case Rollback => s.poll.Some?
  }

  ghost function Next(s: System, e: Event): System
    requires Enabled(s, e)
  {
    match e
    case Save(row) => s.(rows := s.rows + [row])
    case Tick(to) => s.(clock := to)
    case Begin(listed) => s.(poll := Some(Poll(s.begun, s.clock, listed, map[])), begun := s.begun + 1)
    case Dispatch(id, ok) =>
      var p := s.poll.value;
      s.(poll := Some(p.(results := p.results[id := ok])),
         log := s.log + [LogEntry(p.number, id, ok, p.now)])
    case Commit(at) =>
      var p := s.poll.value;
      s.(rows := Settle(s.rows, p.listed, p.Succeeded(), p.now, at), poll := None, history := s.history + [p])
    case Rollback => s.(poll := None)
  }

  const EMPTY: System := System([], 0, 0, None, [], [])

  ghost predicate IsRun(s: System, events: seq<Event>)
    decreases |events|
  {
    events == [] || (Enabled(s, events[0]) && IsRun(Next(s, events[0]), events[1..]))
  }

  ghost function After(s: System, events: seq<Event>): System
    requires IsRun(s, events)
    decreases |events|
  {
    if events == [] then s else After(Next(s, events[0]), events[1..])
  }

  // ------------------------------------------------------- what is delivered

  /** The rows that business transactions save. */
  ghost function SavedRows(events: seq<Event>): seq<Row> {
    if events == [] then [] else (if events[0].Save? then [events[0].row] else []) + SavedRows(events[1..])
  }

  /** The two rows carry the same message. */
  ghost predicate SameMessage(a: Row, b: Row) {
    a.eventType == b.eventType && a.payload == b.payload && a.headers == b.headers
  }

  lemma {:induction false} SettleKeepsMessages(rows: seq<Row>, listed: seq<nat>, succeeded: set<nat>, now: int, at: int, i: nat)
    requires forall id :: id in listed ==> id < |rows|
    requires i < |rows|
    ensures SameMessage(Settle(rows, listed, succeeded, now, at)[i], rows[i])
    decreases |listed|
  {
    if listed != [] {
      var j := listed[0];
      HeadTail(listed);
      var r := if j in succeeded then Sent(rows[j], at) else Failed(rows[j], now);
      SettleKeepsMessages(rows[j := r], listed[1..], succeeded, now, at, i);
    }
  }

  lemma StepKeepsMessages(s: System, e: Event, i: nat)
    requires Enabled(s, e) && i < |s.rows|
    ensures |Next(s, e).rows| == |s.rows| + if e.Save? then 1 else 0
    ensures SameMessage(Next(s, e).rows[i], s.rows[i])
  {
    if e.Commit? {
      var p := s.poll.value;
      SettleKeepsMessages(s.rows, p.listed, p.Succeeded(), p.now, e.at, i);
    }
  }

  /** In every run, from any state, however often a row is retried, its event type,
      payload and headers stay as they were. */
  lemma {:induction false} MessageKept(s: System, events: seq<Event>, i: nat)
    requires IsRun(s, events) && i < |s.rows|
    ensures i < |After(s, events).rows|
    ensures After(s, events).rows[i].eventType == s.rows[i].eventType
    ensures After(s, events).rows[i].payload == s.rows[i].payload
    ensures After(s, events).rows[i].headers == s.rows[i].headers
    decreases |events|
  {
    if events != [] {
      StepKeepsMessages(s, events[0], i);
      MessageKept(Next(s, events[0]), events[1..], i);
    }
  }

  lemma {:induction false} RowsSaved(s: System, events: seq<Event>, i: nat)
    requires IsRun(s, events)
    requires |s.rows| <= i < |s.rows| + |SavedRows(events)|
    ensures i < |After(s, events).rows| && SameMessage(After(s, events).rows[i], SavedRows(events)[i - |s.rows|])
    decreases |events|
  {
    var e := events[0];
    if e.Save? && i == |s.rows| {
      MessageKept(Next(s, e), events[1..], i);
    } else {
      RowsSaved(Next(s, e), events[1..], i);
    }
  }

  lemma {:induction false} RowCount(s: System, events: seq<Event>)
    requires IsRun(s, events)
    ensures |After(s, events).rows| == |s.rows| + |SavedRows(events)|
    decreases |events|
  {
    if events != [] {
      RowCount(Next(s, events[0]), events[1..]);
    }
  }

  /** In every run the i-th row of the table carries the i-th saved message, and so
      does whatever a poll hands to the dispatch function. */
  lemma DeliveredAsSaved(events: seq<Event>, listed: seq<nat>, messages: seq<Row>)
    requires IsRun(EMPTY, events)
    requires Outbox.IsRowsOf(After(EMPTY, events).rows, listed, messages)
    ensures |After(EMPTY, events).rows| == |SavedRows(events)|
    ensures forall i :: 0 <= i < |SavedRows(events)| ==> SameMessage(After(EMPTY, events).rows[i], SavedRows(events)[i])
    ensures forall k :: 0 <= k < |listed| ==>
              && listed[k] < |SavedRows(events)|
              && messages[k].eventType == SavedRows(events)[listed[k]].eventType
              && messages[k].payload == SavedRows(events)[listed[k]].payload
              && messages[k].headers == SavedRows(events)[listed[k]].headers
  {
    RowCount(EMPTY, events);
    forall i: nat | i < |SavedRows(events)| ensures SameMessage(After(EMPTY, events).rows[i], SavedRows(events)[i]) {
      RowsSaved(EMPTY, events, i);
    }
  }

  // ------------------------------------------------------ history of one row

  ghost function Failures(h: seq<Poll>, i: nat): nat {
    if h == [] then 0
    else
      var q := h[|h| - 1];
      Failures(h[..|h| - 1], i) + if i in q.results && !q.results[i] then 1 else 0
  }

  ghost function Successes(h: seq<Poll>, i: nat): nat {
    if h == [] then 0
    else
      var q := h[|h| - 1];
      Successes(h[..|h| - 1], i) + if i in q.results && q.results[i] then 1 else 0
  }

  /** The transaction times of the committed polls that attempted row `i`. */
  ghost function AttemptTimes(h: seq<Poll>, i: nat): seq<int> {
    if h == [] then []
    else
      var q := h[|h| - 1];
      AttemptTimes(h[..|h| - 1], i) + if i in q.results then [q.now] else []
  }

  lemma HistorySnoc(h: seq<Poll>, q: Poll, i: nat)
    ensures Failures(h + [q], i) == Failures(h, i) + if i in q.results && !q.results[i] then 1 else 0
    ensures Successes(h + [q], i) == Successes(h, i) + if i in q.results && q.results[i] then 1 else 0
    ensures AttemptTimes(h + [q], i) == AttemptTimes(h, i) + if i in q.results then [q.now] else []
  {
    assert (h + [q])[..|h + [q]| - 1] == h;
  }

  lemma {:induction false} UntouchedRow(h: seq<Poll>, i: nat)
    requires forall q :: q in h ==> i !in q.results
    ensures Failures(h, i) == 0 && Successes(h, i) == 0 && AttemptTimes(h, i) == []
  {
    if h != [] {
      UntouchedRow(h[..|h| - 1], i);
    }
  }

  lemma {:induction false} SomeSuccess(h: seq<Poll>, i: nat) returns (q: Poll)
    requires 0 < Successes(h, i)
    ensures q in h && i in q.results && q.results[i]
  {
    var last := h[|h| - 1];
    if i in last.results && last.results[i] {
      q := last;
    } else {
      q := SomeSuccess(h[..|h| - 1], i);
    }
  }

  // --------------------------------------------------------------- invariant

  /** Attempt j + 1 comes strictly more than 2^j - 1 seconds after the first. */
  ghost predicate Spaced(times: seq<int>) {
    forall j :: 1 <= j < |times| ==> times[0] + (Pow2(j) - 1) * SECOND < times[j]
  }

  /** What the committed polls `h` have made of row `i`. */
  ghost predicate RowInv(r: Row, h: seq<Poll>, i: nat) {
    var times := AttemptTimes(h, i);
    && r.retryCount == Failures(h, i)
    && r.retryCount <= OUTBOX_MAX_RETRY_COUNT
    && Successes(h, i) == (if r.sentAt.Some? then 1 else 0)
    && |times| == r.retryCount + Successes(h, i)
    && |times| <= OUTBOX_MAX_RETRY_COUNT
    && Spaced(times)
    && (0 < r.retryCount && r.sentAt.None? ==>
          r.nextRetryAt == times[|times| - 1] + Pow2(r.retryCount - 1) * SECOND)
  }

  ghost predicate PollInv(s: System, p: Poll) {
    && NoDup(p.listed)
    && |p.listed| <= OUTBOX_BATCH_SIZE
    && (forall id :: id in p.listed ==> id < |s.rows| && Due(s.rows[id], p.now))
    && (forall id :: id in p.results ==> id in p.listed)
  }

  /** Every outcome of `p` is in the log, under the number of `p`. */
  ghost predicate Logged(s: System, p: Poll) {
    forall id :: id in p.results ==> LogEntry(p.number, id, p.results[id], p.now) in s.log
  }

  ghost predicate Inv(s: System) {
    && (forall i :: 0 <= i < |s.rows| ==> RowInv(s.rows[i], s.history, i))
    && (s.poll.Some? ==> PollInv(s, s.poll.value) && Logged(s, s.poll.value))
    && (forall q :: q in s.history ==> Logged(s, q) && forall id :: id in q.results ==> id < |s.rows|)
  }

  lemma FirstPause(k: nat, first: int, last: int)
    requires 1 <= k
    requires k == 1 ==> last == first
    requires 1 < k ==> first + (Pow2(k - 1) - 1) * SECOND < last
    ensures first + (Pow2(k) - 1) * SECOND <= last + Pow2(k - 1) * SECOND
  {
    assert Pow2(k) == 2 * Pow2(k - 1);
    if k == 1 {
      assert Pow2(0) == 1;
    }
  }

  /** After k >= 1 committed failures a waiting row is not due before 2^k - 1
      seconds past its first failure. */
  lemma WaitingPause(r: Row, h: seq<Poll>, i: nat)
    requires RowInv(r, h, i)
    requires r.sentAt.None? && 0 < r.retryCount
    ensures |AttemptTimes(h, i)| == r.retryCount
    ensures AttemptTimes(h, i)[0] + (Pow2(r.retryCount) - 1) * SECOND <= r.nextRetryAt
  {
    var times := AttemptTimes(h, i);
    FirstPause(|times|, times[0], times[|times| - 1]);
  }

  /** A committed attempt of a due row. */
  lemma AttemptRow(r: Row, h: seq<Poll>, p: Poll, at: int, i: nat)
    requires RowInv(r, h, i)
    requires i in p.results && Due(r, p.now)
    ensures RowInv(if p.results[i] then Sent(r, at) else Failed(r, p.now), h + [p], i)
  {
    HistorySnoc(h, p, i);
    if 0 < r.retryCount {
      WaitingPause(r, h, i);
    }
  }

  /** A committed poll that does not attempt the row. */
  lemma PassedOver(r: Row, h: seq<Poll>, p: Poll, i: nat)
    requires RowInv(r, h, i) && i !in p.results
    ensures RowInv(r, h + [p], i)
  {
    HistorySnoc(h, p, i);
  }

  lemma CommitRow(s: System, at: int, i: nat)
    requires Inv(s) && Enabled(s, Commit(at)) && i < |s.rows|
    ensures RowInv(Next(s, Commit(at)).rows[i], s.history + [s.poll.value], i)
  {
    var p, r := s.poll.value, s.rows[i];
    SettleRow(s.rows, p.listed, p.Succeeded(), p.now, at, i);
    assert RowInv(r, s.history, i);
    if i in p.listed {
      assert i in p.Succeeded() <==> p.results[i];
      AttemptRow(r, s.history, p, at, i);
    } else {
      PassedOver(r, s.history, p, i);
    }
  }

  lemma StepRows(s: System, e: Event)
    requires Inv(s) && Enabled(s, e)
    ensures var t := Next(s, e); forall i :: 0 <= i < |t.rows| ==> RowInv(t.rows[i], t.history, i)
  {
    var t := Next(s, e);
    forall i: nat | i < |t.rows| ensures RowInv(t.rows[i], t.history, i) {
      match e
      case Commit(at) => CommitRow(s, at, i);
      case Save(row) =>
        if i < |s.rows| {
          assert RowInv(s.rows[i], s.history, i);
        } else {
          UntouchedRow(s.history, i);
        }
      case _ => assert RowInv(s.rows[i], s.history, i);
    }
  }

  lemma StepInv(s: System, e: Event)
    requires Inv(s) && Enabled(s, e)
    ensures Inv(Next(s, e))
  {
    StepRows(s, e);
    var t := Next(s, e);
    if e.Begin? {
      forall id | id in e.listed ensures id < |s.rows| && Due(s.rows[id], s.clock) {
        var k :| 0 <= k < |e.listed| && e.listed[k] == id;
      }
    }
    forall q | q in t.history ensures Logged(t, q) && forall id :: id in q.results ==> id < |t.rows| {
      if q !in s.history {
        assert Logged(s, q);
      }
    }
  }

  lemma {:induction false} RunInv(s: System, events: seq<Event>)
    requires Inv(s) && IsRun(s, events)
    ensures Inv(After(s, events))
    decreases |events|
  {
    if events != [] {
      StepInv(s, events[0]);
      RunInv(Next(s, events[0]), events[1..]);
    }
  }

  // ---------------------------------------------------------------- lifetime

  /** In every run: the retry count is the number of committed failures, at most
      five; a row is sent exactly when one committed poll dispatched it with
      success, and that very poll logged it; no row is attempted more than five
      times by committed polls. */
  lemma RowLifetime(events: seq<Event>, i: nat)
    requires IsRun(EMPTY, events)
    requires i < |After(EMPTY, events).rows|
    ensures var s := After(EMPTY, events);
            && s.rows[i].retryCount == Failures(s.history, i) <= 5
            && |AttemptTimes(s.history, i)| == Failures(s.history, i) + Successes(s.history, i) <= 5
            && Successes(s.history, i) == (if s.rows[i].sentAt.Some? then 1 else 0)
            && (s.rows[i].sentAt.Some? ==>
                  exists q :: q in s.history && i in q.results && q.results[i] && LogEntry(q.number, i, true, q.now) in s.log)
  {
    RunInv(EMPTY, events);
    var s := After(EMPTY, events);
    assert RowInv(s.rows[i], s.history, i);
    if s.rows[i].sentAt.Some? {
      var q := SomeSuccess(s.history, i);
      assert Logged(s, q);
    }
  }

  ghost predicate Closed(r: Row) {
    r.sentAt.Some? || r.retryCount == OUTBOX_MAX_RETRY_COUNT
  }

  /** A sent or exhausted row is never listed, dispatched or changed again. */
  lemma {:induction false} ClosedForever(s: System, events: seq<Event>, i: nat)
    requires Inv(s) && IsRun(s, events)
    requires i < |s.rows| && Closed(s.rows[i])
    ensures i < |After(s, events).rows| && After(s, events).rows[i] == s.rows[i]
    ensures After(s, events).poll.Some? ==> i !in After(s, events).poll.value.listed
    ensures forall k :: 0 <= k < |events| ==> !(events[k].Begin? && i in events[k].listed) && !(events[k].Dispatch? && events[k].id == i)
    decreases |events|
  {
    if events != [] {
      var e := events[0];
      assert RowInv(s.rows[i], s.history, i);
      if e.Commit? {
        var p := s.poll.value;
        SettleRow(s.rows, p.listed, p.Succeeded(), p.now, e.at, i);
      }
      StepInv(s, e);
      ClosedForever(Next(s, e), events[1..], i);
      forall k | 0 <= k < |events|
        ensures !(events[k].Begin? && i in events[k].listed) && !(events[k].Dispatch? && events[k].id == i)
      {
        if k > 0 {
          assert events[k] == events[1..][k - 1];
        }
      }
    }
  }

  lemma UncommittedStep(s: System, e: Event)
    requires Enabled(s, e) && !e.Commit?
    ensures var t := Next(s, e);
            && t.rows == s.rows + (if e.Save? then [e.row] else [])
            && t.history == s.history
            && s.log <= t.log && |t.log| == |s.log| + if e.Dispatch? then 1 else 0
  {
  }

  lemma {:induction false} UncommittedTable(s: System, events: seq<Event>)
    requires IsRun(s, events)
    requires forall e :: e in events ==> !e.Commit?
    ensures After(s, events).rows == s.rows + SavedRows(events)
    ensures After(s, events).history == s.history
    decreases |events|
  {
    if events != [] {
      HeadTail(events);
      UncommittedStep(s, events[0]);
      UncommittedTable(Next(s, events[0]), events[1..]);
      Associative(s.rows, if events[0].Save? then [events[0].row] else [], SavedRows(events[1..]));
    }
  }

  lemma {:induction false} UncommittedLog(s: System, events: seq<Event>)
    requires IsRun(s, events)
    requires forall e :: e in events ==> !e.Commit?
    ensures s.log <= After(s, events).log
    ensures |After(s, events).log| == |s.log| + Dispatches(events)
    decreases |events|
  {
    if events != [] {
      HeadTail(events);
      UncommittedStep(s, events[0]);
      UncommittedLog(Next(s, events[0]), events[1..]);
    }
  }

  /** Whatever polls have dispatched, and whatever is saved meanwhile, without a
      commit the table has only gained the saved rows, while every dispatch stays
      in the log. */
  lemma RolledBackPoll(s: System, events: seq<Event>)
    requires IsRun(s, events)
    requires forall e :: e in events ==> !e.Commit?
    ensures After(s, events).rows == s.rows + SavedRows(events)
    ensures After(s, events).history == s.history
    ensures s.log <= After(s, events).log
    ensures |After(s, events).log| == |s.log| + Dispatches(events)
  {
    UncommittedTable(s, events);
    UncommittedLog(s, events);
  }

  ghost function Dispatches(events: seq<Event>): nat {
    if events == [] then 0 else (if events[0].Dispatch? then 1 else 0) + Dispatches(events[1..])
  }

  // ----------------------------------------------------------------- backoff

  /** Every dispatch of a row with k >= 1 committed failures, even one in a poll
      that is later rolled back, happens strictly later than 2^k - 1 seconds
      after the row's first failing poll. */
  lemma BackoffGap(events: seq<Event>, id: nat, ok: bool)
    requires IsRun(EMPTY, events)
    requires Enabled(After(EMPTY, events), Dispatch(id, ok))
    requires 0 < Failures(After(EMPTY, events).history, id)
    ensures var s := After(EMPTY, events);
            && 0 < |AttemptTimes(s.history, id)|
            && AttemptTimes(s.history, id)[0] + (Pow2(Failures(s.history, id)) - 1) * SECOND < s.poll.value.now
  {
    RunInv(EMPTY, events);
    var s := After(EMPTY, events);
    assert RowInv(s.rows[id], s.history, id);
    WaitingPause(s.rows[id], s.history, id);
  }

  /** The committed attempts of a row spread geometrically; a fifth one comes
      more than 15 seconds after the first. */
  lemma BackoffSpread(events: seq<Event>, id: nat)
    requires IsRun(EMPTY, events)
    requires id < |After(EMPTY, events).rows|
    ensures var times := AttemptTimes(After(EMPTY, events).history, id);
            && (forall j :: 1 <= j < |times| ==> times[0] + (Pow2(j) - 1) * 1_000_000 < times[j])
            && (|times| == 5 ==> times[0] + 15_000_000 < times[4])
  {
    RunInv(EMPTY, events);
    var s := After(EMPTY, events);
    assert RowInv(s.rows[id], s.history, id);
    assert Pow2(4) == 16;
  }

  // ------------------------------------------------------------------ drains

  ghost function RowBudget(r: Row): nat {
    if r.sentAt.None? && r.retryCount <= OUTBOX_MAX_RETRY_COUNT then OUTBOX_MAX_RETRY_COUNT - r.retryCount else 0
  }

  /** Attempts still allowed, over the whole table. */
  ghost function Budget(rows: seq<Row>): nat {
    if rows == [] then 0 else RowBudget(rows[0]) + Budget(rows[1..])
  }

  lemma {:induction false} BudgetUpdate(rows: seq<Row>, i: nat, r: Row)
    requires i < |rows|
    ensures Budget(rows[i := r]) + RowBudget(rows[i]) == Budget(rows) + RowBudget(r)
  {
    if i == 0 {
      assert rows[i := r][1..] == rows[1..];
    } else {
      assert rows[i := r][1..] == rows[1..][i - 1 := r];
      BudgetUpdate(rows[1..], i - 1, r);
    }
  }

  lemma {:induction false} BudgetSnoc(rows: seq<Row>, r: Row)
    ensures Budget(rows + [r]) == Budget(rows) + RowBudget(r)
  {
    if rows == [] {
      assert rows + [r] == [r];
    } else {
      assert (rows + [r])[1..] == rows[1..] + [r];
      BudgetSnoc(rows[1..], r);
    }
  }

  lemma {:induction false} SettleDrains(rows: seq<Row>, listed: seq<nat>, succeeded: set<nat>, now: int, at: int)
    requires NoDup(listed)
    requires forall id :: id in listed ==> id < |rows| && Eligible(rows[id])
    ensures Budget(Settle(rows, listed, succeeded, now, at)) + |listed| <= Budget(rows)
    decreases |listed|
  {
    if listed != [] {
      var i := listed[0];
      HeadTail(listed);
      var r := if i in succeeded then Sent(rows[i], at) else Failed(rows[i], now);
      BudgetUpdate(rows, i, r);
      SettleDrains(rows[i := r], listed[1..], succeeded, now, at);
    }
  }

  /** Dispatches made by committed polls. */
  ghost function CommittedDispatches(h: seq<Poll>): nat {
    if h == [] then 0 else CommittedDispatches(h[..|h| - 1]) + |h[|h| - 1].listed|
  }

  ghost function NonEmptyPolls(h: seq<Poll>): nat {
    if h == [] then 0 else NonEmptyPolls(h[..|h| - 1]) + if h[|h| - 1].listed != [] then 1 else 0
  }

  ghost function Saves(events: seq<Event>): nat {
    if events == [] then 0 else (if events[0].Save? then 1 else 0) + Saves(events[1..])
  }

  lemma {:induction false} PollsWithinDispatches(h: seq<Poll>)
    ensures NonEmptyPolls(h) <= CommittedDispatches(h)
  {
    if h != [] {
      PollsWithinDispatches(h[..|h| - 1]);
    }
  }

  lemma StepDrains(s: System, e: Event)
    requires Inv(s) && Enabled(s, e)
    ensures var t := Next(s, e);
            Budget(t.rows) + CommittedDispatches(t.history)
            <= Budget(s.rows) + CommittedDispatches(s.history) + (if e.Save? then 5 else 0)
    ensures var t := Next(s, e);
            Budget(t.rows) + NonEmptyPolls(t.history)
            <= Budget(s.rows) + NonEmptyPolls(s.history) + (if e.Save? then 5 else 0)
  {
    match e
    case Save(row) => BudgetSnoc(s.rows, row);
    case Commit(at) =>
      var p := s.poll.value;
      SettleDrains(s.rows, p.listed, p.Succeeded(), p.now, at);
      assert (s.history + [p])[..|s.history + [p]| - 1] == s.history;
    case _ =>
  }

  /** From any reachable state: attempts left, plus committed dispatches and
      non-empty committed polls made, grow by at most five per saved row. */
  lemma {:induction false} RunDrains(s: System, events: seq<Event>)
    requires Inv(s) && IsRun(s, events)
    ensures var t := After(s, events);
            && Budget(t.rows) + CommittedDispatches(t.history)
               <= Budget(s.rows) + CommittedDispatches(s.history) + 5 * Saves(events)
            && Budget(t.rows) + NonEmptyPolls(t.history)
               <= Budget(s.rows) + NonEmptyPolls(s.history) + 5 * Saves(events)
    decreases |events|
  {
    if events != [] {
      StepInv(s, events[0]);
      StepDrains(s, events[0]);
      RunDrains(Next(s, events[0]), events[1..]);
    }
  }

  /** With n rows ever saved, committed polls dispatch at most 5n times, and at
      most 5n of them list anything. */
  lemma OutboxDrains(events: seq<Event>)
    requires IsRun(EMPTY, events)
    ensures CommittedDispatches(After(EMPTY, events).history) <= 5 * Saves(events)
    ensures NonEmptyPolls(After(EMPTY, events).history) <= 5 * Saves(events)
  {
    RunDrains(EMPTY, events);
  }

  // ----------------------------------------------------------- no starvation

  /** Eligible rows whose turn comes no later than `deadline`. */
  ghost function Ahead(rows: seq<Row>, deadline: int): nat {
    if rows == [] then 0
    else (if Eligible(rows[0]) && rows[0].nextRetryAt <= deadline then 1 else 0) + Ahead(rows[1..], deadline)
  }

  lemma {:induction false} AheadUpdate(rows: seq<Row>, deadline: int, i: nat, r: Row)
    requires i < |rows|
    requires Eligible(rows[i]) && rows[i].nextRetryAt <= deadline
    requires !(Eligible(r) && r.nextRetryAt <= deadline)
    ensures Ahead(rows[i := r], deadline) + 1 == Ahead(rows, deadline)
  {
    if i == 0 {
      assert rows[i := r][1..] == rows[1..];
    } else {
      assert rows[i := r][1..] == rows[1..][i - 1 := r];
      AheadUpdate(rows[1..], deadline, i - 1, r);
    }
  }

  lemma {:induction false} AheadSnoc(rows: seq<Row>, deadline: int, r: Row)
    ensures Ahead(rows + [r], deadline) <= Ahead(rows, deadline) + 1
  {
    if rows == [] {
      assert rows + [r] == [r];
    } else {
      assert (rows + [r])[1..] == rows[1..] + [r];
      AheadSnoc(rows[1..], deadline, r);
    }
  }

  lemma {:induction false} AheadHas(rows: seq<Row>, deadline: int, i: nat)
    requires i < |rows|
    requires Eligible(rows[i]) && rows[i].nextRetryAt <= deadline
    ensures 1 <= Ahead(rows, deadline)
  {
    if i > 0 {
      AheadHas(rows[1..], deadline, i - 1);
    }
  }

  lemma Pow2Positive(k: nat)
    ensures 1 <= Pow2(k)
  {
  }

  /** A poll moves every row it lists out of the way: sent rows leave the queue
      and failed rows are put strictly behind anything that was due. */
  lemma {:induction false} SettleMovesOn(rows: seq<Row>, listed: seq<nat>, succeeded: set<nat>, now: int, at: int, deadline: int)
    requires NoDup(listed)
    requires deadline < now
    requires forall id :: id in listed ==> id < |rows| && Eligible(rows[id]) && rows[id].nextRetryAt <= deadline
    ensures Ahead(Settle(rows, listed, succeeded, now, at), deadline) + |listed| == Ahead(rows, deadline)
    decreases |listed|
  {
    if listed != [] {
      var i := listed[0];
      HeadTail(listed);
      var r := if i in succeeded then Sent(rows[i], at) else Failed(rows[i], now);
      Pow2Positive(rows[i].retryCount);
      AheadUpdate(rows, deadline, i, r);
      SettleMovesOn(rows[i := r], listed[1..], succeeded, now, at, deadline);
    }
  }

  /** Row `i` waits, due, and a running poll that passed it over is full of
      rows that are due no later. */
  ghost predicate Waiting(s: System, i: nat) {
    && i < |s.rows|
    && Due(s.rows[i], s.clock)
    && (s.poll.Some? ==>
          var p := s.poll.value;
          && s.rows[i].nextRetryAt < p.now
          && (i in p.listed ||
              (|p.listed| == OUTBOX_BATCH_SIZE &&
               forall id :: id in p.listed ==> id < |s.rows| && s.rows[id].nextRetryAt <= s.rows[i].nextRetryAt)))
  }

  /** The step is the commit of a poll that listed row `i`. */
  ghost predicate Serves(s: System, e: Event, i: nat) {
    e.Commit? && s.poll.Some? && i in s.poll.value.listed
  }

  ghost predicate NeverServed(s: System, events: seq<Event>, i: nat)
    requires IsRun(s, events)
    decreases |events|
  {
    events == [] || (!Serves(s, events[0], i) && NeverServed(Next(s, events[0]), events[1..], i))
  }

  ghost function Commits(events: seq<Event>): nat {
    if events == [] then 0 else (if events[0].Commit? then 1 else 0) + Commits(events[1..])
  }

  lemma StepWaiting(s: System, e: Event, i: nat)
    requires Inv(s) && Enabled(s, e) && Waiting(s, i) && !Serves(s, e, i)
    ensures Waiting(Next(s, e), i) && Next(s, e).rows[i] == s.rows[i]
    ensures var d := s.rows[i].nextRetryAt;
            Ahead(Next(s, e).rows, d) + (if e.Commit? then 100 else 0) <= Ahead(s.rows, d) + (if e.Save? then 1 else 0)
  {
    var d := s.rows[i].nextRetryAt;
    match e
    case Save(row) => AheadSnoc(s.rows, d, row);
    case Begin(listed) =>
      forall id | id in listed && i !in listed ensures id < |s.rows| && s.rows[id].nextRetryAt <= d {
        var k :| 0 <= k < |listed| && listed[k] == id;
      }
    case Commit(at) =>
      var p := s.poll.value;
      SettleRow(s.rows, p.listed, p.Succeeded(), p.now, at, i);
      SettleMovesOn(s.rows, p.listed, p.Succeeded(), p.now, at, d);
    case _ =>
  }

  lemma {:induction false} RunWaiting(s: System, events: seq<Event>, i: nat)
    requires Inv(s) && IsRun(s, events) && Waiting(s, i) && NeverServed(s, events, i)
    ensures 100 * Commits(events) + 1 <= Ahead(s.rows, s.rows[i].nextRetryAt) + Saves(events)
    decreases |events|
  {
    if events == [] {
      AheadHas(s.rows, s.rows[i].nextRetryAt, i);
    } else {
      StepInv(s, events[0]);
      StepWaiting(s, events[0], i);
      RunWaiting(Next(s, events[0]), events[1..], i);
    }
  }

  /** No starvation: as long as a due row has not been dispatched by a committed
      poll, a hundred times the number of committed polls stays within the number
      of other eligible rows not behind it plus the number of rows saved meanwhile. */
  lemma NoStarvation(before: seq<Event>, events: seq<Event>, i: nat)
    requires IsRun(EMPTY, before)
    requires IsRun(After(EMPTY, before), events)
    requires After(EMPTY, before).poll.None?
    requires i < |After(EMPTY, before).rows|
    requires var r := After(EMPTY, before).rows[i];
             r.sentAt == None && r.retryCount < 5 && r.nextRetryAt < After(EMPTY, before).clock
    requires NeverServed(After(EMPTY, before), events, i)
    ensures var s := After(EMPTY, before);
            100 * Commits(events) <= Ahead(s.rows, s.rows[i].nextRetryAt) - 1 + Saves(events)
  {
    RunInv(EMPTY, before);
    RunWaiting(After(EMPTY, before), events, i);
  }

  // ------------------------------------------- the poll method as run events

  ghost function DispatchEvents(log: seq<Outbox.Attempt>): seq<Event> {
    if log == [] then [] else [Dispatch(log[0].id, log[0].ok)] + DispatchEvents(log[1..])
  }

  /** The attempts in `log` are still to come in the running poll, one each. */
  ghost predicate Outstanding(p: Poll, log: seq<Outbox.Attempt>) {
    && NoDup(log)
    && (forall a :: a in log ==> a.id in p.listed && a.id !in p.results)
    && (forall a, b :: a in log && b in log && a.id == b.id ==> a == b)
  }

  /** What the attempts of poll `p` leave in the system's log. */
  ghost function Entries(p: Poll, log: seq<Outbox.Attempt>): seq<LogEntry> {
    if log == [] then [] else [LogEntry(p.number, log[0].id, log[0].ok, p.now)] + Entries(p, log[1..])
  }

  lemma OneMoreOutcome(p: Poll, log: seq<Outbox.Attempt>)
    requires log != [] && Outstanding(p, log)
    ensures var q := p.(results := p.results[log[0].id := log[0].ok]);
            && Outstanding(q, log[1..])
            && q.Succeeded() + Outbox.Succeeded(log[1..]) == p.Succeeded() + Outbox.Succeeded(log)
  {
    HeadTail(log);
    var q := p.(results := p.results[log[0].id := log[0].ok]);
    assert forall i :: i in q.Succeeded() <==> i in p.Succeeded() || (i == log[0].id && log[0].ok);
    assert forall i :: i in Outbox.Succeeded(log) <==> i in Outbox.Succeeded(log[1..]) || (i == log[0].id && log[0].ok);
  }

  /** The first dispatch of `log`, and what is left to do after it. */
  lemma FirstDispatch(s: System, log: seq<Outbox.Attempt>) returns (t: System)
    requires s.poll.Some? && log != [] && Outstanding(s.poll.value, log)
    ensures Enabled(s, Dispatch(log[0].id, log[0].ok)) && t == Next(s, Dispatch(log[0].id, log[0].ok))
    ensures t.poll == Some(s.poll.value.(results := s.poll.value.results[log[0].id := log[0].ok]))
    ensures t.rows == s.rows
    ensures t.log == s.log + [LogEntry(s.poll.value.number, log[0].id, log[0].ok, s.poll.value.now)]
    ensures Outstanding(t.poll.value, log[1..])
    ensures DispatchEvents(log)[0] == Dispatch(log[0].id, log[0].ok) && DispatchEvents(log)[1..] == DispatchEvents(log[1..])
  {
    HeadTail(log);
    OneMoreOutcome(s.poll.value, log);
    t := Next(s, Dispatch(log[0].id, log[0].ok));
  }

  /** Making the dispatches of `log` is a run of the machine. */
  lemma {:induction false} DispatchesRun(s: System, log: seq<Outbox.Attempt>)
    requires s.poll.Some? && Outstanding(s.poll.value, log)
    ensures IsRun(s, DispatchEvents(log))
    decreases |log|
  {
    if log != [] {
      var t := FirstDispatch(s, log);
      DispatchesRun(t, log[1..]);
    }
  }

  /** It leaves the table and gives every attempt's outcome to the poll. */
  lemma {:induction false} DispatchesEffect(s: System, log: seq<Outbox.Attempt>)
    requires s.poll.Some? && Outstanding(s.poll.value, log) && IsRun(s, DispatchEvents(log))
    ensures var t := After(s, DispatchEvents(log));
            && t.rows == s.rows
            && t.poll.Some? && t.poll.value == s.poll.value.(results := t.poll.value.results)
            && t.poll.value.Succeeded() == s.poll.value.Succeeded() + Outbox.Succeeded(log)
            && (forall a :: a in log ==> a.id in t.poll.value.results)
            && (forall id :: id in s.poll.value.results ==> id in t.poll.value.results)
    decreases |log|
  {
    if log == [] {
      assert Outbox.Succeeded(log) == {};
    } else {
      var t := FirstDispatch(s, log);
      HeadTail(log);
      OneMoreOutcome(s.poll.value, log);
      DispatchesEffect(t, log[1..]);
    }
  }

  /** It adds the attempts to the log. */
  lemma {:induction false} DispatchesLogged(s: System, log: seq<Outbox.Attempt>)
    requires s.poll.Some? && Outstanding(s.poll.value, log) && IsRun(s, DispatchEvents(log))
    ensures After(s, DispatchEvents(log)).log == s.log + Entries(s.poll.value, log)
    decreases |log|
  {
    if log != [] {
      var t := FirstDispatch(s, log);
      DispatchesLogged(t, log[1..]);
      SamePollEntries(s.poll.value, t.poll.value, log[1..]);
    }
  }

  lemma {:induction false} RunAppend(s: System, events: seq<Event>, end: Event)
    requires IsRun(s, events) && Enabled(After(s, events), end)
    ensures IsRun(s, events + [end]) && After(s, events + [end]) == Next(After(s, events), end)
    decreases |events|
  {
    if events == [] {
      assert [] + [end] == [end] && [end][1..] == [];
    } else {
      assert (events + [end])[1..] == events[1..] + [end];
      RunAppend(Next(s, events[0]), events[1..], end);
    }
  }

  lemma {:induction false} SamePollEntries(p: Poll, q: Poll, log: seq<Outbox.Attempt>)
    requires p.number == q.number && p.now == q.now
    ensures Entries(p, log) == Entries(q, log)
  {
    if log != [] {
      SamePollEntries(p, q, log[1..]);
    }
  }

  /** A call of the poll method is a run: it begins a poll, dispatches in the order
      the scheduler chose, and ends in a commit of the same table or in a rollback;
      either way its attempts are the ones that the log gains. */
  lemma PollIsRun(s: System, listed: seq<nat>, log: seq<Outbox.Attempt>, sent: seq<nat>, failed: seq<nat>, end: Event)
    requires s.poll == None && (end.Commit? || end.Rollback?)
    requires IsDueListing(s.rows, s.clock, OUTBOX_BATCH_SIZE, listed)
    requires Outbox.Covers(log, listed, sent, failed)
    ensures var events := [Begin(listed)] + DispatchEvents(log) + [end];
            && IsRun(s, events)
            && After(s, events).rows ==
               (if end.Commit? then Settle(s.rows, listed, Outbox.Succeeded(log), s.clock, end.at) else s.rows)
            && After(s, events).log == s.log + Entries(Poll(s.begun, s.clock, listed, map[]), log)
            && After(s, events).poll == None
  {
    var t := Next(s, Begin(listed));
    var dispatches := DispatchEvents(log);
    DispatchesRun(t, log);
    DispatchesEffect(t, log);
    DispatchesLogged(t, log);
    var u := After(t, dispatches);
    forall id | id in listed ensures id < |s.rows| && id in u.poll.value.results {
      var k :| 0 <= k < |listed| && listed[k] == id;
      assert Outbox.Attempt(id, id in sent) in log;
    }
    assert t.poll.value.Succeeded() + Outbox.Succeeded(log) == Outbox.Succeeded(log);
    RunAppend(t, dispatches, end);
    assert [Begin(listed)] + dispatches + [end] == [Begin(listed)] + (dispatches + [end]);
    assert ([Begin(listed)] + (dispatches + [end]))[1..] == dispatches + [end];
  }
}
