/** The outbox table and the statements the store runs on it. A row is known by
    its place in the table: rows are only ever appended, so the place stands for
    the row's unique id. Times are microseconds. */
module OutboxStore {
  import opened Basics

  const OUTBOX_BATCH_SIZE: nat := 100
  const OUTBOX_MAX_RETRY_COUNT: nat := 5
  const SECOND: int := 1_000_000

  datatype Row = Row(
    eventType: string,
    payload: string,
    headers: string,
    retryCount: nat,
    nextRetryAt: int,
    sentAt: Option<int>
  )

  function Pow2(k: nat): nat {
    if k == 0 then 1 else 2 * Pow2(k - 1)
  }

  predicate Eligible(r: Row) {
    r.sentAt == None && r.retryCount < OUTBOX_MAX_RETRY_COUNT
  }

  predicate Due(r: Row, now: int) {
    Eligible(r) && r.nextRetryAt < now
  }

  /** The row after a failed dispatch; the pause is computed from the old count. */
  function Failed(r: Row, now: int): Row {
    r.(retryCount := r.retryCount + 1, nextRetryAt := now + Pow2(r.retryCount) * SECOND)
  }

  function Sent(r: Row, at: int): Row {
    r.(sentAt := Some(at))
  }

  /** `ids` is an answer the database may give to the listing query: due rows,
      earliest next_retry_at first, cut at `limit`. Ties may come in any order. */
  predicate IsDueListing(rows: seq<Row>, now: int, limit: nat, ids: seq<nat>) {
    && |ids| <= limit
    && NoDup(ids)
    && (forall k :: 0 <= k < |ids| ==> ids[k] < |rows| && Due(rows[ids[k]], now))
    && (forall j, k :: 0 <= j < k < |ids| ==> rows[ids[j]].nextRetryAt <= rows[ids[k]].nextRetryAt)
    && (forall i :: 0 <= i < |rows| && Due(rows[i], now) && i !in ids ==>
          |ids| == limit && forall k :: 0 <= k < |ids| ==> rows[ids[k]].nextRetryAt <= rows[i].nextRetryAt)
  }

  /** The earliest due row outside `ids`, if there is one. */
  lemma {:induction false} EarliestOutside(rows: seq<Row>, now: int, ids: seq<nat>, upTo: nat) returns (best: Option<nat>)
    requires upTo <= |rows|
    ensures best.Some? ==> best.value < upTo && Due(rows[best.value], now) && best.value !in ids
    ensures forall i :: 0 <= i < upTo && Due(rows[i], now) && i !in ids ==>
              best.Some? && rows[best.value].nextRetryAt <= rows[i].nextRetryAt
  {
    if upTo == 0 {
      best := None;
    } else {
      best := EarliestOutside(rows, now, ids, upTo - 1);
      var i := upTo - 1;
      if Due(rows[i], now) && i !in ids && (best.None? || rows[i].nextRetryAt < rows[best.value].nextRetryAt) {
        best := Some(i);
      }
    }
  }

  /** The query always has an answer. */
  lemma {:induction false} DueListingExists(rows: seq<Row>, now: int, limit: nat) returns (ids: seq<nat>)
    ensures IsDueListing(rows, now, limit, ids)
    decreases limit
  {
    if limit == 0 {
      ids := [];
    } else {
      ids := DueListingExists(rows, now, limit - 1);
      var best := EarliestOutside(rows, now, ids, |rows|);
      if best.Some? {
        NoDupSnoc(ids, best.value);
        ids := ids + [best.value];
      }
    }
  }

  // ------------------------------------------------- marking, as a plain loop

  /** What one poll means: go through the listed rows one at a time and record
      each dispatch outcome. */
  function Settle(rows: seq<Row>, listed: seq<nat>, succeeded: set<nat>, now: int, at: int): (settled: seq<Row>)
    requires forall id :: id in listed ==> id < |rows|
    ensures |settled| == |rows|
    decreases |listed|
  {
    if listed == [] then rows
    else
      var i := listed[0];
      HeadTail(listed);
      var r := if i in succeeded then Sent(rows[i], at) else Failed(rows[i], now);
      Settle(rows[i := r], listed[1..], succeeded, now, at)
  }

  lemma {:induction false} SettleRow(rows: seq<Row>, listed: seq<nat>, succeeded: set<nat>, now: int, at: int, i: nat)
    requires NoDup(listed)
    requires forall id :: id in listed ==> id < |rows|
    requires i < |rows|
    ensures Settle(rows, listed, succeeded, now, at)[i] ==
            if i !in listed then rows[i]
            else if i in succeeded then Sent(rows[i], at)
            else Failed(rows[i], now)
    decreases |listed|
  {
    if listed != [] {
      HeadTail(listed);
      var r := if listed[0] in succeeded then Sent(rows[listed[0]], at) else Failed(rows[listed[0]], now);
      SettleRow(rows[listed[0] := r], listed[1..], succeeded, now, at, i);
    }
  }

  /** Row by row, the loop touches the listed rows once each and nothing else: a
      success sets the sent time alone, a failure the count and the next time alone. */
  lemma SettleAt(rows: seq<Row>, listed: seq<nat>, succeeded: set<nat>, now: int, at: int, i: nat)
    requires NoDup(listed)
    requires forall id :: id in listed ==> id < |rows|
    requires i < |rows|
    ensures var r := rows[i];
            Settle(rows, listed, succeeded, now, at)[i] ==
            if i !in listed then r
            else if i in succeeded then Row(r.eventType, r.payload, r.headers, r.retryCount, r.nextRetryAt, Some(at))
            else Row(r.eventType, r.payload, r.headers, r.retryCount + 1, now + Pow2(r.retryCount) * 1_000_000, r.sentAt)
  {
    SettleRow(rows, listed, succeeded, now, at, i);
  }

  /** The two bulk updates of a poll, in the order the poll issues them, leave
      the table that the plain loop leaves. */
  lemma MarksAreTheLoop(
    rows: seq<Row>, failedRows: seq<Row>, sentRows: seq<Row>,
    listed: seq<nat>, sent: seq<nat>, failed: seq<nat>, succeeded: set<nat>, now: int, at: int)
    requires NoDup(listed)
    requires forall x :: x in succeeded <==> x in sent
    requires forall id :: id in listed ==> id < |rows|
    requires forall x :: x in listed <==> x in sent || x in failed
    requires forall x :: !(x in sent && x in failed)
    requires IsMarkedFailed(rows, failedRows, failed, now)
    requires IsMarkedSent(failedRows, sentRows, sent, at)
    ensures sentRows == Settle(rows, listed, succeeded, now, at)
  {
    forall i: nat | i < |rows| ensures sentRows[i] == Settle(rows, listed, succeeded, now, at)[i] {
      SettleRow(rows, listed, succeeded, now, at, i);
    }
  }

  /** `after` is `before` with exactly the rows of `ids` pushed back. */
  ghost predicate IsMarkedFailed(before: seq<Row>, after: seq<Row>, ids: seq<nat>, now: int) {
    && |after| == |before|
    && forall i :: 0 <= i < |before| ==> after[i] == if i in ids then Failed(before[i], now) else before[i]
  }

  /** `after` is `before` with exactly the rows of `ids` stamped as sent. */
  ghost predicate IsMarkedSent(before: seq<Row>, after: seq<Row>, ids: seq<nat>, at: int) {
    && |after| == |before|
    && forall i :: 0 <= i < |before| ==> after[i] == if i in ids then Sent(before[i], at) else before[i]
  }

  class Store {
    var rows: seq<Row>

    constructor ()
      ensures rows == []
    {
      rows := [];
    }

    /** `nextRetryAt` is whatever time the insert writes into the new row. */
    method CreateOutboxMessage(eventType: string, payload: string, headers: string, nextRetryAt: int) returns (id: nat)
      modifies this
      ensures id == |old(rows)|
      ensures rows == old(rows) + [Row(eventType, payload, headers, 0, nextRetryAt, None)]
    {
      id := |rows|;
      rows := rows + [Row(eventType, payload, headers, 0, nextRetryAt, None)];
    }

    method ListDueOutboxMessages(now: int, limit: nat) returns (ids: seq<nat>, messages: seq<Row>)
      ensures IsDueListing(rows, now, limit, ids)
      ensures |messages| == |ids| <= limit && NoDup(ids)
      ensures forall k :: 0 <= k < |ids| ==>
                && ids[k] < |rows| && messages[k] == rows[ids[k]]
                && rows[ids[k]].sentAt == None && rows[ids[k]].retryCount < 5 && rows[ids[k]].nextRetryAt < now
      ensures forall j, k :: 0 <= j < k < |ids| ==> messages[j].nextRetryAt <= messages[k].nextRetryAt
      ensures forall i :: 0 <= i < |rows| && rows[i].sentAt == None && rows[i].retryCount < 5 && rows[i].nextRetryAt < now ==>
                i in ids || (|ids| == limit && forall k :: 0 <= k < |ids| ==> messages[k].nextRetryAt <= rows[i].nextRetryAt)
    {
      ghost var possible := DueListingExists(rows, now, limit);
      ids :| IsDueListing(rows, now, limit, ids);
      messages := [];
      for k := 0 to |ids|
        invariant IsDueListing(rows, now, limit, ids)
        invariant |messages| == k
        invariant forall j :: 0 <= j < k ==> messages[j] == rows[ids[j]]
      {
        messages := messages + [rows[ids[k]]];
      }
    }

    method MarkOutboxMessagesFailed(ids: seq<nat>, now: int)
      modifies this
      ensures IsMarkedFailed(old(rows), rows, ids, now)
      ensures forall i :: 0 <= i < |rows| ==>
                var r := old(rows)[i];
                rows[i] == if i in ids
                           then Row(r.eventType, r.payload, r.headers, r.retryCount + 1, now + Pow2(r.retryCount) * 1_000_000, r.sentAt)
                           else r
    {
      if |ids| == 0 {
        return;
      }
      for i := 0 to |rows|
        invariant |rows| == |old(rows)|
        invariant forall j :: 0 <= j < i ==> rows[j] == if j in ids then Failed(old(rows)[j], now) else old(rows)[j]
        invariant forall j :: i <= j < |rows| ==> rows[j] == old(rows)[j]
      {
        if i in ids {
          rows := rows[i := Failed(rows[i], now)];
        }
      }
    }

    method MarkOutboxMessagesSent(ids: seq<nat>, at: int)
      modifies this
      ensures IsMarkedSent(old(rows), rows, ids, at)
      ensures forall i :: 0 <= i < |rows| ==>
                var r := old(rows)[i];
                rows[i] == if i in ids then Row(r.eventType, r.payload, r.headers, r.retryCount, r.nextRetryAt, Some(at)) else r
    {
      if |ids| == 0 {
        return;
      }
      for i := 0 to |rows|
        invariant |rows| == |old(rows)|
        invariant forall j :: 0 <= j < i ==> rows[j] == if j in ids then Sent(old(rows)[j], at) else old(rows)[j]
        invariant forall j :: i <= j < |rows| ==> rows[j] == old(rows)[j]
      {
        if i in ids {
          rows := rows[i := Sent(rows[i], at)];
        }
      }
    }
  }
}
