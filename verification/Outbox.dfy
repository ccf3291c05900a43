/** One poll of the outbox: list, dispatch on the worker pool, mark, commit. */
module Outbox {
  import opened Basics
  import opened OutboxStore
  import opened WorkerPool

  datatype Attempt = Attempt(id: nat, ok: bool)

  /** The goroutine knows the outcome of its dispatch. */
  predicate Decided(w: Worker) {
    w.Started() && !w.Dispatching?
  }

  /** The log holds one attempt for every dispatch made so far, and no other. */
  ghost predicate LogExact(p: Pool, log: seq<Attempt>) {
    && |p.workers| == |p.ids|
    && NoDup(log)
    && (forall a :: a in log ==> a.id in p.ids)
    && (forall i, b :: 0 <= i < |p.ids| ==>
          (Attempt(p.ids[i], b) in log <==> Decided(p.workers[i]) && p.workers[i].ok == b))
  }

  lemma DispatchLog(p: Pool, i: nat, ok: bool, log: seq<Attempt>)
    requires Inv(p) && Enabled(p, Dispatch(i, ok)) && LogExact(p, log)
    ensures LogExact(Apply(p, Dispatch(i, ok)), log + [Attempt(p.ids[i], ok)])
  {
    assert !Decided(p.workers[i]);
    NoDupSnoc(log, Attempt(p.ids[i], ok));
  }

  /** A step that dispatches nothing. */
  lemma SameLog(p: Pool, q: Pool, log: seq<Attempt>)
    requires LogExact(p, log) && q.ids == p.ids && |q.workers| == |p.workers|
    requires forall i :: 0 <= i < |p.ids| ==>
               p.workers[i] == q.workers[i] ||
               (Decided(p.workers[i]) && Decided(q.workers[i]) && p.workers[i].ok == q.workers[i].ok) ||
               (!Decided(p.workers[i]) && !Decided(q.workers[i]))
    ensures LogExact(q, log)
  {
  }

  lemma QuietStep(p: Pool, a: Action)
    requires CountersAgree(p) && Enabled(p, a) && !a.Dispatch?
    ensures var q := Apply(p, a);
            && q.ids == p.ids && |q.workers| == |p.workers|
            && forall i :: 0 <= i < |p.workers| ==>
                 p.workers[i] == q.workers[i] ||
                 (Decided(p.workers[i]) && Decided(q.workers[i]) && p.workers[i].ok == q.workers[i].ok) ||
                 (!Decided(p.workers[i]) && !Decided(q.workers[i]))
  {
  }

  lemma StepLog(p: Pool, a: Action, log: seq<Attempt>)
    requires Inv(p) && Enabled(p, a) && LogExact(p, log)
    ensures LogExact(Apply(p, a), if a.Dispatch? then log + [Attempt(p.ids[a.i], a.ok)] else log)
  {
    if a.Dispatch? {
      DispatchLog(p, a.i, a.ok, log);
    } else {
      QuietStep(p, a);
      SameLog(p, Apply(p, a), log);
    }
  }

  lemma Advance(p: Pool, a: Action, log: seq<Attempt>)
    requires Inv(p) && Enabled(p, a) && LogExact(p, log)
    ensures Inv(Apply(p, a)) && Measure(Apply(p, a)) < Measure(p) && Apply(p, a).ids == p.ids
    ensures a.Dispatch? ==> a.i < |p.ids|
    ensures LogExact(Apply(p, a), log + if a.Dispatch? then [Attempt(p.ids[a.i], a.ok)] else [])
  {
    StepInv(p, a);
    StepLog(p, a, log);
    assert log + [] == log;
  }

  /** `log` attempts every listed message exactly once, and `sent` and `failed`
      are the messages whose attempt succeeded and failed. */
  ghost predicate Covers(log: seq<Attempt>, listed: seq<nat>, sent: seq<nat>, failed: seq<nat>) {
    && NoDup(log)
    && (forall a :: a in log <==> a.id in (if a.ok then sent else failed))
    && Partitioned(listed, sent, failed)
  }

  lemma ReturnedLog(p: Pool, log: seq<Attempt>)
    requires Inv(p) && p.main == Returned && LogExact(p, log)
    ensures Covers(log, p.ids, p.sent, p.failed)
  {
    ReturnedPartition(p);
    forall a ensures a in log <==> a.id in (if a.ok then p.sent else p.failed) {
      if a.id in p.ids {
        var i :| 0 <= i < |p.ids| && p.ids[i] == a.id;
        assert a == Attempt(p.ids[i], a.ok);
      }
    }
  }

  /** The rows whose attempt in `log` succeeded. */
  function Succeeded(log: seq<Attempt>): set<nat> {
    set a | a in log && a.ok :: a.id
  }

  /** `messages` are the listed rows, with all their fields. */
  ghost predicate IsRowsOf(rows: seq<Row>, listed: seq<nat>, messages: seq<Row>) {
    |messages| == |listed| && forall k :: 0 <= k < |listed| ==> listed[k] < |rows| && messages[k] == rows[listed[k]]
  }

  /** The scheduler's choice. */
  method AnyStep(p: Pool) returns (a: Action)
    requires Inv(p) && p.main != Returned
    ensures Enabled(p, a)
  {
    ghost var possible := Progress(p);
    a :| Enabled(p, a);
  }

  class Outbox {
    const store: Store
    var dispatched: seq<Attempt>

    constructor (store: Store)
      ensures this.store == store && dispatched == []
    {
      this.store := store;
      dispatched := [];
    }

    /** Runs the loop and its goroutines under an arbitrary scheduler. */
    method DispatchAll(ids: seq<nat>) returns (sent: seq<nat>, failed: seq<nat>, ghost log: seq<Attempt>)
      requires NoDup(ids)
      modifies this`dispatched
      ensures dispatched == old(dispatched) + log
      ensures Covers(log, ids, sent, failed)
    {
      var p := Initial(ids);
      InitialInv(ids);
      log := [];
      while p.main != Returned
        invariant Inv(p) && p.ids == ids
        invariant LogExact(p, log)
        invariant dispatched == old(dispatched) + log
        decreases Measure(p)
      {
        var a := AnyStep(p);
        Advance(p, a, log);
        var made := if a.Dispatch? then [Attempt(ids[a.i], a.ok)] else [];
        dispatched := dispatched + made;
        log := log + made;
        p := Apply(p, a);
      }
      ReturnedLog(p, log);
      sent, failed := p.sent, p.failed;
    }

    /** The body of the poll's transaction. The three flags say which statements
        the database refuses. */
    method ProcessOutboxMessages(now: int, at: int, listError: bool, failedError: bool, sentError: bool)
      returns (err: bool, listed: seq<nat>, messages: seq<Row>, ghost log: seq<Attempt>)
      modifies store, this`dispatched
      ensures err == (listError || failedError || sentError)
      ensures dispatched == old(dispatched) + log
      ensures !listError ==> IsDueListing(old(store.rows), now, OUTBOX_BATCH_SIZE, listed)
      ensures !listError ==> IsRowsOf(old(store.rows), listed, messages)
      ensures !listError ==> exists sent, failed :: Covers(log, listed, sent, failed)
      ensures !err ==> store.rows == Settle(old(store.rows), listed, Succeeded(log), now, at)
    {
      listed, messages, log := [], [], [];
      if listError {
        return true, listed, messages, log;
      }
      var sent, failed;
      listed, messages := store.ListDueOutboxMessages(now, OUTBOX_BATCH_SIZE);
      sent, failed, log := DispatchAll(listed);
      ghost var before := store.rows;
      if !failedError {
        store.MarkOutboxMessagesFailed(failed, now);
      }
      ghost var between := store.rows;
      if !sentError {
        store.MarkOutboxMessagesSent(sent, at);
      }
      err := failedError || sentError;
      if !err {
        SucceededAreSent(log, listed, sent, failed);
        MarksAreTheLoop(before, between, store.rows, listed, sent, failed, Succeeded(log), now, at);
      }
    }

    /** The ticker's transaction: any error undoes the table, never the dispatches.
        `messages` are what is handed to the dispatch function. */
    method Poll(now: int, at: int, listError: bool, failedError: bool, sentError: bool, commitError: bool)
      returns (committed: bool, listed: seq<nat>, messages: seq<Row>, ghost log: seq<Attempt>)
      modifies store, this`dispatched
      ensures committed == !(listError || failedError || sentError || commitError)
      ensures dispatched == old(dispatched) + log
      ensures !listError ==> IsDueListing(old(store.rows), now, OUTBOX_BATCH_SIZE, listed)
      ensures !listError ==> IsRowsOf(old(store.rows), listed, messages)
      ensures !listError ==> exists sent, failed :: Covers(log, listed, sent, failed)
      ensures store.rows == if committed then Settle(old(store.rows), listed, Succeeded(log), now, at) else old(store.rows)
    {
      var saved := store.rows;
      var err;
      err, listed, messages, log := ProcessOutboxMessages(now, at, listError, failedError, sentError);
      committed := !err && !commitError;
      if !committed {
        store.rows := saved;
      }
    }
  }

  lemma SucceededAreSent(log: seq<Attempt>, listed: seq<nat>, sent: seq<nat>, failed: seq<nat>)
    requires Covers(log, listed, sent, failed)
    ensures forall x :: x in Succeeded(log) <==> x in sent
  {
    forall x | x in sent ensures x in Succeeded(log) {
      assert Attempt(x, true) in log;
    }
  }
}
