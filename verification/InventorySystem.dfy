/** The inventory service as a whole: Kafka deliveries become outbox rows, polls
    dispatch rows into ledger transactions that commit on their own, and the poll
    itself may still roll back. */
module InventorySystem {
  import opened Basics
  import opened Inventory
  import L = InventoryLedger
  import R = OutboxRuns
  import Store = OutboxStore

  datatype Message =
    | ProductCreated(skus: seq<nat>)
    | OrderCreated(orderId: int, items: seq<Item>)
    | PaymentPaid(orderId: int)
    | Unknown

  /** What the dispatcher makes of an event type and a payload. */
  type Decoder = (string, string) -> Message

  /** `messages[i]` is the message that was saved as outbox row i. */
  datatype System = System(decode: Decoder, outbox: R.System, messages: seq<Message>, ledger: L.Ledger)
  {
    /** The message as the dispatcher reads it from the row. */
    ghost function Stored(id: nat): Message
      requires id < |outbox.rows|
    {
      decode(outbox.rows[id].eventType, outbox.rows[id].payload)
    }
  }

  datatype Event =
    | Deliver(message: Message, row: Store.Row)
    | DispatchRow(id: nat, fault: bool)
    | OutboxStep(step: R.Event)
    | Request(request: L.Event)

  /** The transaction that a message asks for, if its event type is known. */
  function Handler(m: Message, fault: bool): Option<L.Event> {
    match m
    case ProductCreated(skus) => Some(L.Create(skus, fault))
    case OrderCreated(orderId, items) => Some(L.Reserve(orderId, items, fault))
    case PaymentPaid(orderId) => Some(L.Deduct(orderId, fault))
    case Unknown => None
  }

  /** Whether the dispatch of `m` succeeds. */
  predicate Handled(l: L.Ledger, m: Message, fault: bool) {
    Handler(m, fault).Some? && L.Tx(l.tables, Handler(m, fault).value).Some?
  }

  function AfterHandler(l: L.Ledger, m: Message, fault: bool): L.Ledger {
    if Handler(m, fault).Some? then L.Next(l, Handler(m, fault).value) else l
  }

  /** Which transaction a dispatch runs, and what it leaves. */
  ghost predicate Dispatched(t: Tables, m: Message, fault: bool, ok: bool, t': Tables) {
    match m
    case ProductCreated(skus) =>
      ok == CreateTx(t, skus, fault).Some? && t' == OrKeep(CreateTx(t, skus, fault), t)
    case OrderCreated(orderId, items) =>
      ok == ReserveTx(t, orderId, items, fault).Some? && t' == OrKeep(ReserveTx(t, orderId, items, fault), t)
    case PaymentPaid(orderId) =>
      ok == DeductTx(t, orderId, fault).Some? && t' == OrKeep(DeductTx(t, orderId, fault), t)
    case Unknown =>
      !ok && t' == t
  }

  lemma HandlerMeaning(l: L.Ledger, m: Message, fault: bool)
    ensures Dispatched(l.tables, m, fault, Handled(l, m, fault), AfterHandler(l, m, fault).tables)
    ensures AfterHandler(l, m, fault).applied ==
            l.applied + if m.OrderCreated? && Handled(l, m, fault) then [L.Entry(m.orderId, m.items)] else []
  {
  }

  class InventoryUsecase {
    const db: InventoryDb

    constructor (db: InventoryDb)
      ensures this.db == db
    {
      this.db := db;
    }

    method DispatchOutboxMessage(m: Message, faultAt: nat) returns (ok: bool)
      modifies db
      ensures exists fault :: Dispatched(old(db.Contents()), m, fault, ok, db.Contents())
    {
      ghost var t := db.Contents();
      match m
      case ProductCreated(skus) =>
        ok := db.BatchCreateInventories(skus, faultAt);
        assert Dispatched(t, m, faultAt < 2, ok, db.Contents());
      case OrderCreated(orderId, items) =>
        ok := db.ReserveStock(orderId, items, faultAt);
        assert Dispatched(t, m, faultAt < |items| + 2, ok, db.Contents());
      case PaymentPaid(orderId) =>
        ok := db.DeductStock(orderId, faultAt);
        assert Dispatched(t, m, orderId in t.locks && faultAt < |t.locks[orderId].items| + 3, ok, db.Contents());
      case Unknown =>
        ok := false;
        assert Dispatched(t, m, false, ok, db.Contents());
    }
  }

  ghost predicate Enabled(s: System, e: Event) {
    match e
    case Deliver(m, row) => R.Enabled(s.outbox, R.Save(row)) && s.decode(row.eventType, row.payload) == m
    case DispatchRow(id, fault) =>
      && id < |s.outbox.rows|
      && R.Enabled(s.outbox, R.Dispatch(id, Handled(s.ledger, s.Stored(id), fault)))
    case OutboxStep(step) => !step.Save? && !step.Dispatch? && R.Enabled(s.outbox, step)
    case Request(request) => request.Release? || request.Adjust?
  }

  ghost function Next(s: System, e: Event): System
    requires Enabled(s, e)
  {
    match e
    case Deliver(m, row) => s.(outbox := R.Next(s.outbox, R.Save(row)), messages := s.messages + [m])
    case DispatchRow(id, fault) =>
      var m := s.Stored(id);
      s.(outbox := R.Next(s.outbox, R.Dispatch(id, Handled(s.ledger, m, fault))),
         ledger := AfterHandler(s.ledger, m, fault))
    case OutboxStep(step) => s.(outbox := R.Next(s.outbox, step))
    case Request(request) => s.(ledger := L.Next(s.ledger, request))
  }

  function Start(decode: Decoder): System {
    System(decode, R.EMPTY, [], L.EMPTY)
  }

  /** An order is dispatched with positive quantities of SKUs that exist. */
  ghost predicate Proper(s: System, e: Event) {
    e.DispatchRow? && e.id < |s.messages| && s.messages[e.id].OrderCreated? ==>
      forall item :: item in s.messages[e.id].items ==> 0 < item.quantity && item.sku in s.ledger.tables.inventories
  }

  ghost predicate IsRun(s: System, events: seq<Event>)
    decreases |events|
  {
    events == [] || (Enabled(s, events[0]) && Proper(s, events[0]) && IsRun(Next(s, events[0]), events[1..]))
  }

  ghost function After(s: System, events: seq<Event>): System
    requires IsRun(s, events)
    decreases |events|
  {
    if events == [] then s else After(Next(s, events[0]), events[1..])
  }

  /** The log entry is a successful dispatch of an order. */
  ghost predicate Wins(d: R.LogEntry, messages: seq<Message>) {
    d.ok && d.id < |messages| && messages[d.id].OrderCreated?
  }

  /** The orders that the dispatches in `log` have reserved, in their order. */
  ghost function Won(log: seq<R.LogEntry>, messages: seq<Message>): seq<L.Entry> {
    if log == [] then []
    else
      var d := log[|log| - 1];
      Won(log[..|log| - 1], messages)
      + if Wins(d, messages) then [L.Entry(messages[d.id].orderId, messages[d.id].items)] else []
  }

  ghost predicate Inv(s: System) {
    && R.Inv(s.outbox)
    && L.Inv(s.ledger)
    && |s.messages| == |s.outbox.rows|
    && (forall i :: 0 <= i < |s.messages| ==> s.Stored(i) == s.messages[i])
    && (forall d :: d in s.outbox.log ==> d.id < |s.messages| && (d.ok ==> Done(s.ledger.tables, s.messages[d.id])))
    && s.ledger.applied == Won(s.outbox.log, s.messages)
  }

  /** What a successful dispatch of the message has left for good: the SKUs exist;
      the order has a lock with its items; a paid order was empty and is settled.
      A message of another type is never dispatched with success. */
  ghost predicate Done(t: Tables, m: Message) {
    match m
    case ProductCreated(skus) => forall s :: s in skus ==> s in t.inventories
    case OrderCreated(orderId, items) => orderId in t.locks && t.locks[orderId].items == items
    case PaymentPaid(orderId) => orderId in t.locks && t.locks[orderId].items == [] && t.locks[orderId].status != Locked
    case Unknown => false
  }

  /** SKUs and locks stay, payloads stay, and no settled lock is locked again. */
  ghost predicate Grows(t: Tables, t': Tables) {
    && (forall s :: s in t.inventories ==> s in t'.inventories)
    && (forall o :: o in t.locks ==>
          && o in t'.locks && t'.locks[o].items == t.locks[o].items
          && (t.locks[o].status != Locked ==> t'.locks[o].status != Locked))
  }

  lemma LedgerGrows(l: L.Ledger, e: L.Event)
    requires L.Inv(l) && L.Proper(l, e)
    ensures Grows(l.tables, L.Next(l, e).tables)
  {
    var t := l.tables;
    match e
    case Reserve(orderId, items, fault) => L.ReserveMeaning(t, orderId, items, fault);
    case Release(orderId, fault) => L.ReleaseMeaning(t, orderId, fault);
    case Deduct(orderId, fault) => L.DeductMeaning(t, orderId, fault);
    case Adjust(sku, quantity, fault) => L.AdjustMeaning(t, sku, quantity, fault);
    case Create(skus, fault) => L.CreateMeaning(t, skus, fault);
  }

  lemma DoneStays(t: Tables, t': Tables, m: Message)
    requires Done(t, m) && Grows(t, t')
    ensures Done(t', m)
  {
  }

  /** A dispatch that succeeds has done what its message asks for. */
  lemma DispatchDone(l: L.Ledger, m: Message, fault: bool)
    requires L.Inv(l) && Handled(l, m, fault)
    requires m.OrderCreated? ==> forall item :: item in m.items ==> 0 < item.quantity
    ensures Done(AfterHandler(l, m, fault).tables, m)
  {
    var t := l.tables;
    match m
    case ProductCreated(skus) => L.CreateMeaning(t, skus, fault);
    case OrderCreated(orderId, items) => L.ReserveMeaning(t, orderId, items, fault);
    case PaymentPaid(orderId) =>
      L.DeductMeaning(t, orderId, fault);
      NotEmptyNotPaid(l, orderId);
    case Unknown =>
  }

  lemma NotEmptyNotPaid(l: L.Ledger, orderId: int)
    requires L.Inv(l) && orderId in l.tables.locks && L.NonePositive(l.tables.inventories, l.tables.locks[orderId].items)
    ensures l.tables.locks[orderId].items == []
  {
    var e :| e in l.applied && e.orderId == orderId;
    SomeElement(e.items);
  }

  lemma {:induction false} WonMoreMessages(log: seq<R.LogEntry>, messages: seq<Message>, m: Message)
    requires forall d :: d in log ==> d.id < |messages|
    ensures Won(log, messages + [m]) == Won(log, messages)
  {
    if log != [] {
      assert log[|log| - 1] in log;
      WonMoreMessages(log[..|log| - 1], messages, m);
    }
  }

  lemma LogDone(s: System, ledger: L.Ledger)
    requires Inv(s) && Grows(s.ledger.tables, ledger.tables)
    ensures forall d :: d in s.outbox.log && d.ok ==> Done(ledger.tables, s.messages[d.id])
  {
    forall d | d in s.outbox.log && d.ok ensures Done(ledger.tables, s.messages[d.id]) {
      DoneStays(s.ledger.tables, ledger.tables, s.messages[d.id]);
    }
  }

  /** The ledger after a dispatch. */
  lemma DispatchLedger(s: System, id: nat, fault: bool)
    requires Inv(s) && Enabled(s, DispatchRow(id, fault)) && Proper(s, DispatchRow(id, fault))
    ensures var after := AfterHandler(s.ledger, s.messages[id], fault);
            && L.Inv(after) && Grows(s.ledger.tables, after.tables)
            && (Handled(s.ledger, s.messages[id], fault) ==> Done(after.tables, s.messages[id]))
  {
    var m := s.messages[id];
    if Handler(m, fault).Some? {
      L.StepInv(s.ledger, Handler(m, fault).value);
      LedgerGrows(s.ledger, Handler(m, fault).value);
    }
    if Handled(s.ledger, m, fault) {
      DispatchDone(s.ledger, m, fault);
    }
  }

  lemma DispatchWon(s: System, id: nat, fault: bool)
    requires Inv(s) && Enabled(s, DispatchRow(id, fault))
    ensures Next(s, DispatchRow(id, fault)).ledger.applied == Won(Next(s, DispatchRow(id, fault)).outbox.log, s.messages)
  {
    var m := s.messages[id];
    var p := s.outbox.poll.value;
    var d := R.LogEntry(p.number, id, Handled(s.ledger, m, fault), p.now);
    assert (s.outbox.log + [d])[..|s.outbox.log|] == s.outbox.log;
    assert Won(s.outbox.log + [d], s.messages)
        == Won(s.outbox.log, s.messages) + if Wins(d, s.messages) then [L.Entry(m.orderId, m.items)] else [];
  }

  lemma DispatchInv(s: System, id: nat, fault: bool)
    requires Inv(s) && Enabled(s, DispatchRow(id, fault)) && Proper(s, DispatchRow(id, fault))
    ensures Inv(Next(s, DispatchRow(id, fault)))
  {
    R.StepInv(s.outbox, R.Dispatch(id, Handled(s.ledger, s.messages[id], fault)));
    DispatchLedger(s, id, fault);
    LogDone(s, AfterHandler(s.ledger, s.messages[id], fault));
    DispatchWon(s, id, fault);
  }

  lemma DeliverInv(s: System, m: Message, row: Store.Row)
    requires Inv(s) && Enabled(s, Deliver(m, row))
    ensures Inv(Next(s, Deliver(m, row)))
  {
    R.StepInv(s.outbox, R.Save(row));
    WonMoreMessages(s.outbox.log, s.messages, m);
  }

  lemma OutboxInv(s: System, step: R.Event)
    requires Inv(s) && Enabled(s, OutboxStep(step))
    ensures Inv(Next(s, OutboxStep(step)))
  {
    R.StepInv(s.outbox, step);
    forall i: nat | i < |s.messages| ensures Next(s, OutboxStep(step)).Stored(i) == s.messages[i] {
      R.StepKeepsMessages(s.outbox, step, i);
    }
  }

  lemma RequestInv(s: System, request: L.Event)
    requires Inv(s) && Enabled(s, Request(request))
    ensures Inv(Next(s, Request(request)))
  {
    L.StepInv(s.ledger, request);
    LedgerGrows(s.ledger, request);
    LogDone(s, L.Next(s.ledger, request));
  }

  lemma StepInv(s: System, e: Event)
    requires Inv(s) && Enabled(s, e) && Proper(s, e)
    ensures Inv(Next(s, e))
  {
    match e
    case Deliver(m, row) => DeliverInv(s, m, row);
    case DispatchRow(id, fault) => DispatchInv(s, id, fault);
    case OutboxStep(step) => OutboxInv(s, step);
    case Request(request) => RequestInv(s, request);
  }

  lemma {:induction false} RunInv(s: System, events: seq<Event>)
    requires Inv(s) && IsRun(s, events)
    ensures Inv(After(s, events))
    decreases |events|
  {
    if events != [] {
      StepInv(s, events[0]);
      RunInv(Next(s, events[0]), events[1..]);
    }
  }

  lemma {:induction false} WinnerListed(log: seq<R.LogEntry>, messages: seq<Message>, d: R.LogEntry)
    requires d in log && Wins(d, messages)
    ensures L.Entry(messages[d.id].orderId, messages[d.id].items) in Won(log, messages)
  {
    var n := |log| - 1;
    if log[n] != d {
      assert log == log[..n] + [log[n]];
      WinnerListed(log[..n], messages, d);
    }
  }

  lemma {:induction false} WinnersDiffer(log: seq<R.LogEntry>, messages: seq<Message>, j: nat, k: nat)
    requires L.DistinctOrders(Won(log, messages))
    requires j < k < |log| && Wins(log[j], messages) && Wins(log[k], messages)
    ensures messages[log[j].id].orderId != messages[log[k].id].orderId
  {
    var n := |log| - 1;
    var won, before := Won(log, messages), Won(log[..n], messages);
    if k == n {
      assert log[..n][j] == log[j];
      WinnerListed(log[..n], messages, log[j]);
      var a :| 0 <= a < |before| && before[a] == L.Entry(messages[log[j].id].orderId, messages[log[j].id].items);
      assert won == before + [L.Entry(messages[log[n].id].orderId, messages[log[n].id].items)];
      assert won[a].orderId != won[|before|].orderId;
    } else {
      assert before <= won;
      assert log[..n][j] == log[j] && log[..n][k] == log[k];
      WinnersDiffer(log[..n], messages, j, k);
    }
  }

  /** A row marked as sent was dispatched with success, and that was its message. */
  lemma SentRow(s: System, i: nat)
    requires Inv(s) && i < |s.outbox.rows| && s.outbox.rows[i].sentAt.Some?
    ensures Done(s.ledger.tables, s.messages[i])
  {
    assert R.RowInv(s.outbox.rows[i], s.outbox.history, i);
    var q := R.SomeSuccess(s.outbox.history, i);
    assert R.Logged(s.outbox, q);
    assert R.LogEntry(q.number, i, true, q.now) in s.outbox.log;
  }

  /** End to end: over all deliveries of an order, all rows they became, and all
      polls including those rolled back, at most one dispatch of an order
      succeeds; an order has a lock exactly when one did; an order row marked as
      sent stands for a lock with that row's items; every reserved quantity is the
      sum over the successful dispatches whose lock is still locked; and that is all
      of them but those of empty orders. */
  lemma ReservedOncePerOrder(decode: Decoder, events: seq<Event>)
    requires IsRun(Start(decode), events)
    ensures var s := After(Start(decode), events);
            && (forall j, k :: 0 <= j < k < |s.outbox.log| && Wins(s.outbox.log[j], s.messages) && Wins(s.outbox.log[k], s.messages) ==>
                  s.messages[s.outbox.log[j].id].orderId != s.messages[s.outbox.log[k].id].orderId)
            && (forall o :: o in s.ledger.tables.locks <==>
                  exists d :: d in s.outbox.log && Wins(d, s.messages) && s.messages[d.id].orderId == o)
            && |s.messages| == |s.outbox.rows|
            && (forall i :: 0 <= i < |s.outbox.rows| && s.outbox.rows[i].sentAt.Some? && s.messages[i].OrderCreated? ==>
                  && s.messages[i].orderId in s.ledger.tables.locks
                  && s.ledger.tables.locks[s.messages[i].orderId].items == s.messages[i].items)
            && (forall sku :: sku in s.ledger.tables.inventories ==>
                  s.ledger.tables.inventories[sku].reserved
                  == L.Outstanding(Won(s.outbox.log, s.messages), s.ledger.tables.locks, sku))
            && (forall o :: o in s.ledger.tables.locks && s.ledger.tables.locks[o].items != [] ==>
                  s.ledger.tables.locks[o].status == Locked)
  {
    assert L.Orders([]) == {};
    RunInv(Start(decode), events);
    var s := After(Start(decode), events);
    var log := s.outbox.log;
    forall j, k | 0 <= j < k < |log| && Wins(log[j], s.messages) && Wins(log[k], s.messages)
      ensures s.messages[log[j].id].orderId != s.messages[log[k].id].orderId
    {
      WinnersDiffer(log, s.messages, j, k);
    }
    LocksAreWins(s);
    forall i: nat | i < |s.outbox.rows| && s.outbox.rows[i].sentAt.Some? ensures Done(s.ledger.tables, s.messages[i]) {
      SentRow(s, i);
    }
  }

  /** The messages of the deliveries, in order. */
  ghost function Delivered(events: seq<Event>): seq<Message> {
    if events == [] then [] else (if events[0].Deliver? then [events[0].message] else []) + Delivered(events[1..])
  }

  lemma StepDelivered(s: System, e: Event)
    requires Enabled(s, e)
    ensures Next(s, e).messages == s.messages + (if e.Deliver? then [e.message] else []) && Next(s, e).decode == s.decode
  {
  }

  lemma {:induction false} MessagesDelivered(s: System, events: seq<Event>)
    requires IsRun(s, events)
    ensures After(s, events).messages == s.messages + Delivered(events)
    ensures After(s, events).decode == s.decode
    decreases |events|
  {
    if events != [] {
      StepDelivered(s, events[0]);
      MessagesDelivered(Next(s, events[0]), events[1..]);
      Associative(s.messages, if events[0].Deliver? then [events[0].message] else [], Delivered(events[1..]));
    }
  }

  lemma RowReads(s: System, i: nat)
    requires Inv(s) && i < |s.outbox.rows|
    ensures i < |s.messages| && s.decode(s.outbox.rows[i].eventType, s.outbox.rows[i].payload) == s.messages[i]
    ensures s.outbox.rows[i].sentAt.Some? ==> Done(s.ledger.tables, s.messages[i])
  {
    assert s.Stored(i) == s.messages[i];
    if s.outbox.rows[i].sentAt.Some? {
      SentRow(s, i);
    }
  }

  /** End to end, a row marked as sent has been carried out, as delivered: row i still
      reads as the i-th delivered message, and if it is marked as sent, the SKUs of a
      product-created message exist, an order-created message has a lock with its
      items, a payment message was for an empty order that is settled, and it is of
      no other type. */
  lemma SentIsDone(decode: Decoder, events: seq<Event>, i: nat)
    requires IsRun(Start(decode), events)
    ensures var s := After(Start(decode), events);
            && |s.outbox.rows| == |Delivered(events)|
            && (i < |s.outbox.rows| ==>
                  && decode(s.outbox.rows[i].eventType, s.outbox.rows[i].payload) == Delivered(events)[i]
                  && (s.outbox.rows[i].sentAt.Some? ==> Done(s.ledger.tables, Delivered(events)[i])))
  {
    assert L.Orders([]) == {};
    RunInv(Start(decode), events);
    MessagesDelivered(Start(decode), events);
    var s := After(Start(decode), events);
    if i < |s.outbox.rows| {
      RowReads(s, i);
    }
  }

  lemma {:induction false} WonFromLog(log: seq<R.LogEntry>, messages: seq<Message>, e: L.Entry) returns (d: R.LogEntry)
    requires e in Won(log, messages)
    ensures d in log && Wins(d, messages) && messages[d.id].orderId == e.orderId
  {
    var n := |log| - 1;
    if e in Won(log[..n], messages) {
      d := WonFromLog(log[..n], messages, e);
    } else {
      d := log[n];
    }
  }

  lemma LocksAreWins(s: System)
    requires Inv(s)
    ensures forall o :: o in s.ledger.tables.locks <==>
              exists d :: d in s.outbox.log && Wins(d, s.messages) && s.messages[d.id].orderId == o
  {
    forall o | o in s.ledger.tables.locks
      ensures exists d :: d in s.outbox.log && Wins(d, s.messages) && s.messages[d.id].orderId == o
    {
      assert o in L.Orders(s.ledger.applied);
      var e :| e in s.ledger.applied && e.orderId == o;
      var d := WonFromLog(s.outbox.log, s.messages, e);
    }
    forall d | d in s.outbox.log && Wins(d, s.messages)
      ensures s.messages[d.id].orderId in s.ledger.tables.locks
    {
      WinnerListed(s.outbox.log, s.messages, d);
    }
  }
}
