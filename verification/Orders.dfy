/** Orders, the events saved with them, and the guarded status changes. */
module Orders {
  import opened Basics
  import opened Money

  datatype OrderStatus = Pending | Cancelled | Confirmed | Completed

  datatype Order = Order(id: nat, idempotencyKey: string, userId: int, total: real, status: OrderStatus, items: seq<Item>)

  /** Rows of the order outbox, by event type; payloads are JSON of what is shown. */
  datatype OrderEvent =
    | OrderCreated(order: Order)
    | CancelDelay(order: Order)
    | OrderCancelled(orderId: nat)

  /** `nextId` is the id sequence, which no rollback turns back. */
  datatype Db = Db(orders: map<nat, Order>, nextId: nat, outbox: seq<OrderEvent>)

  /** What the payment service may publish about an order. */
  datatype PaymentStatus = Paid | PaymentCancelled | OtherStatus

  // ------------------------------------------------------------ transactions

  predicate KeyTaken(orders: map<nat, Order>, key: string) {
    exists id :: id in orders && orders[id].idempotencyKey == key
  }

  ghost function NewOrder(db: Db, key: string, items: seq<Item>, userId: int): Order {
    Order(db.nextId, key, userId, Value(items), Pending, items)
  }

  /** Creation commits the order with its two events, or nothing. */
  ghost function CreateTx(db: Db, key: string, items: seq<Item>, userId: int, refused: bool): Option<Db> {
    var order := NewOrder(db, key, items, userId);
    if refused || KeyTaken(db.orders, key) then None
    else Some(Db(db.orders[order.id := order], db.nextId + 1, db.outbox + [OrderCreated(order), CancelDelay(order)]))
  }

  /** What the transaction leaves behind: a refused insert still uses up its id,
      unless the duplicate check in the cache ends the call before. */
  ghost function CreateEffect(db: Db, key: string, items: seq<Item>, userId: int, cached: bool, refused: bool): Db {
    var result := CreateTx(db, key, items, userId, cached || refused);
    if result.Some? then result.value else db.(nextId := db.nextId + if cached then 0 else 1)
  }

  ghost predicate Cancellable(orders: map<nat, Order>, orderId: nat) {
    orderId in orders && orders[orderId].status in {Pending, Confirmed}
  }

  function WithStatus(orders: map<nat, Order>, orderId: nat, status: OrderStatus): map<nat, Order> {
    if orderId in orders then orders[orderId := orders[orderId].(status := status)] else orders
  }

  ghost function CancelTx(db: Db, orderId: nat, fault: bool): Option<Db> {
    if fault || !Cancellable(db.orders, orderId) then None
    else Some(db.(orders := WithStatus(db.orders, orderId, Cancelled), outbox := db.outbox + [OrderCancelled(orderId)]))
  }

  // -------------------------------------------------------------------- runs

  /** One transaction, or one half of a timeout handler. `cached` is whatever the
      duplicate check finds in Redis; the other flags are refused statements. */
  datatype Event =
    | Create(key: string, items: seq<Item>, userId: int, cached: bool, refused: bool)
    | SkipId
    | Cancel(orderId: nat, fault: bool)
    | PaymentMessage(orderId: nat, status: PaymentStatus, fault: bool)
    | Read(orderId: nat)
    | Write(reader: nat, fault: bool)

  /** `readers` are the timeout handlers between their read and their write, with
      the order each has read; `writes` are the payment-status writes made so far. */
  datatype System = System(db: Db, readers: map<nat, nat>, nextReader: nat, writes: seq<nat>)

  ghost function Committed(result: Option<Db>, db: Db): Db {
    if result.Some? then result.value else db
  }

  ghost predicate IsPending(orders: map<nat, Order>, orderId: nat) {
    orderId in orders && orders[orderId].status == Pending
  }

  ghost function Next(s: System, e: Event): System {
    match e
    case Create(key, items, userId, cached, refused) => s.(db := CreateEffect(s.db, key, items, userId, cached, refused))
    case SkipId => s.(db := s.db.(nextId := s.db.nextId + 1))
    case Cancel(orderId, fault) => s.(db := Committed(CancelTx(s.db, orderId, fault), s.db))
    case PaymentMessage(orderId, status, fault) =>
      if status.OtherStatus? || fault then s
      else s.(db := s.db.(orders := WithStatus(s.db.orders, orderId, Confirmed)), writes := s.writes + [orderId])
    case Read(orderId) =>
      if IsPending(s.db.orders, orderId) then s.(readers := s.readers[s.nextReader := orderId], nextReader := s.nextReader + 1)
      else s
    case Write(reader, fault) =>
      if reader !in s.readers then s
      else
        var orders := s.db.orders;
        s.(db := s.db.(orders := if fault then orders else WithStatus(orders, s.readers[reader], Cancelled)),
           readers := s.readers - {reader})
  }

  const EMPTY: System := System(Db(map[], 1, []), map[], 0, [])

  ghost function After(s: System, events: seq<Event>): System
    decreases |events|
  {
    if events == [] then s else After(Next(s, events[0]), events[1..])
  }

  lemma {:induction false} AfterAppend(s: System, a: seq<Event>, b: seq<Event>)
    ensures After(s, a + b) == After(After(s, a), b)
    decreases |a|
  {
    if a == [] {
      assert a + b == b;
    } else {
      assert (a + b)[1..] == a[1..] + b;
      AfterAppend(Next(s, a[0]), a[1..], b);
    }
  }

  lemma AfterSnoc(s: System, events: seq<Event>, e: Event)
    ensures After(s, events + [e]) == Next(After(s, events), e)
  {
    AfterAppend(s, events, [e]);
    assert [e][1..] == [];
  }

  // ------------------------------------------------------- the table in place

  class OrderUsecase {
    var orders: map<nat, Order>
    var nextId: nat
    var outbox: seq<OrderEvent>
    /** Timeout handlers that have read and not yet written. */
    var readers: map<nat, nat>
    var nextReader: nat
    ghost var writes: seq<nat>

    constructor ()
      ensures Machine() == EMPTY
    {
      orders, nextId, outbox := map[], 1, [];
      readers, nextReader, writes := map[], 0, [];
    }

    function Contents(): Db
      reads this
    {
      Db(orders, nextId, outbox)
    }

    ghost function Machine(): System
      reads this
    {
      System(Contents(), readers, nextReader, writes)
    }

    /** The insert: takes an id from the sequence even when it is refused. */
    method InsertOrder(key: string, items: seq<Item>, total: real, userId: int, cached: bool) returns (created: Option<Order>)
      modifies this`orders, this`nextId
      ensures cached ==> nextId == old(nextId)
      ensures !cached ==> nextId == old(nextId) + 1
      ensures created.Some? <==> !cached && !KeyTaken(old(orders), key)
      ensures created.None? ==> orders == old(orders)
      ensures created.Some? ==> created.value == Order(old(nextId), key, userId, total, Pending, items)
      ensures created.Some? ==> orders == old(orders)[old(nextId) := created.value]
    {
      if cached {
        return None;
      }
      var id := nextId;
      nextId := nextId + 1;
      if KeyTaken(orders, key) {
        return None;
      }
      var order := Order(id, key, userId, total, Pending, items);
      orders := orders[id := order];
      return Some(order);
    }

    method CreateOrder(key: string, items: seq<Item>, userId: int, cached: bool,
                       createdError: bool, delayError: bool, commitError: bool) returns (created: Option<Order>)
      modifies this`orders, this`nextId, this`outbox
      ensures var refused := createdError || delayError || commitError;
              && Contents() == CreateEffect(old(Contents()), key, items, userId, cached, refused)
              && created == (if CreateTx(old(Contents()), key, items, userId, cached || refused).Some?
                             then Some(NewOrder(old(Contents()), key, items, userId)) else None)
      ensures created.Some? <==>
                !(cached || createdError || delayError || commitError || exists id :: id in old(orders) && old(orders)[id].idempotencyKey == key)
      ensures created.Some? ==>
                var o := created.value;
                && o.items == items && o.userId == userId && o.idempotencyKey == key && o.total == Value(items) && o.status == Pending
                && o.id == old(nextId) && orders == old(orders)[o.id := o]
                && outbox == old(outbox) + [OrderCreated(o), CancelDelay(o)]
      ensures created.None? ==> orders == old(orders) && outbox == old(outbox)
    {
      var savedOrders, savedOutbox := orders, outbox;
      var total := OrderTotal(items);
      created := InsertOrder(key, items, total, userId, cached);
      if created.None? {
        return;
      }
      if !createdError {
        outbox := outbox + [OrderCreated(created.value)];
        if !delayError {
          outbox := outbox + [CancelDelay(created.value)];
          if !commitError {
            assert outbox == savedOutbox + [OrderCreated(created.value), CancelDelay(created.value)];
            return;
          }
        }
      }
      orders, outbox := savedOrders, savedOutbox;
      return None;
    }

    method CancelOrder(orderId: nat, updateError: bool, saveError: bool, commitError: bool) returns (err: bool)
      modifies this`orders, this`outbox
      ensures var result := CancelTx(old(Contents()), orderId, updateError || saveError || commitError);
              && err == result.None?
              && Contents() == Committed(result, old(Contents()))
      ensures !err <==> !(updateError || saveError || commitError) && orderId in old(orders) && old(orders)[orderId].status in {Pending, Confirmed}
      ensures !err ==> orders == old(orders)[orderId := old(orders)[orderId].(status := Cancelled)]
      ensures !err ==> outbox == old(outbox) + [OrderCancelled(orderId)]
      ensures err ==> orders == old(orders) && outbox == old(outbox)
    {
      if updateError || orderId !in orders || !(orders[orderId].status in {Pending, Confirmed}) {
        return true;
      }
      var savedOrders, savedOutbox := orders, outbox;
      orders := WithStatus(orders, orderId, Cancelled);
      err := saveError;
      if !err {
        outbox := outbox + [OrderCancelled(orderId)];
        err := commitError;
      }
      if err {
        orders, outbox := savedOrders, savedOutbox;
      }
    }

    /** Any accepted payment status confirms the order, whatever its status was. */
    method HandlePaymentStatus(orderId: nat, status: PaymentStatus, updateError: bool) returns (err: bool)
      modifies this`orders, this`writes
      ensures err == (status.OtherStatus? || updateError)
      ensures orders == if err then old(orders) else WithStatus(old(orders), orderId, Confirmed)
      ensures writes == if err then old(writes) else old(writes) + [orderId]
      ensures !err ==>
                orders == if orderId in old(orders) then old(orders)[orderId := old(orders)[orderId].(status := Confirmed)] else old(orders)
    {
      if status.OtherStatus? || updateError {
        return true;
      }
      orders := WithStatus(orders, orderId, Confirmed);
      writes := writes + [orderId];
      return false;
    }

    /** Whatever else happens, one event at a time. */
    method Serve(e: Event)
      modifies this
      ensures Machine() == Next(old(Machine()), e)
    {
      match e
      case Create(key, items, userId, cached, refused) =>
        var created := CreateOrder(key, items, userId, cached, refused, false, false);
      case SkipId =>
        nextId := nextId + 1;
      case Cancel(orderId, fault) =>
        var err := CancelOrder(orderId, fault, false, false);
      case PaymentMessage(orderId, status, fault) =>
        var err := HandlePaymentStatus(orderId, status, fault);
      case Read(orderId) =>
        if orderId in orders && orders[orderId].status == Pending {
          readers, nextReader := readers[nextReader := orderId], nextReader + 1;
        }
      case Write(reader, fault) =>
        if reader in readers {
          if !fault {
            orders := WithStatus(orders, readers[reader], Cancelled);
          }
          readers := readers - {reader};
        }
    }

    /** The timeout handler. It reads in one statement and writes in another, and
        `meanwhile` is what other callers do in between; only the handler itself
        makes its own write. The handler is a read of the machine, then what
        happens meanwhile, then a write, and it stops after the read unless that
        found the order pending. */
    method HandleOrderCancelled(orderId: nat, readError: bool, meanwhile: seq<Event>, writeError: bool) returns (err: bool)
      requires forall e :: e in meanwhile && e.Write? ==> e.reader != nextReader
      modifies this
      ensures var pending := !readError && IsPending(old(orders), orderId);
              && err == (readError || (pending && writeError))
              && Machine() == After(old(Machine()),
                                    if readError then []
                                    else if pending then [Read(orderId)] + meanwhile + [Write(old(nextReader), writeError)]
                                    else [Read(orderId)])
    {
      if readError {
        return true;
      }
      assert [Read(orderId)][1..] == [];
      if orderId !in orders || orders[orderId].status != Pending {
        return false;
      }
      ghost var start := Machine();
      var reader := nextReader;
      Serve(Read(orderId));
      assert After(start, [Read(orderId)] + meanwhile[..0]) == Machine();
      for i := 0 to |meanwhile|
        invariant Machine() == After(start, [Read(orderId)] + meanwhile[..i])
        invariant reader in readers && readers[reader] == orderId && reader < nextReader
      {
        AfterSnoc(start, [Read(orderId)] + meanwhile[..i], meanwhile[i]);
        assert [Read(orderId)] + meanwhile[..i] + [meanwhile[i]] == [Read(orderId)] + meanwhile[..i + 1];
        ReaderStays(Machine(), meanwhile[i], reader);
        Serve(meanwhile[i]);
      }
      assert meanwhile[..|meanwhile|] == meanwhile;
      AfterSnoc(start, [Read(orderId)] + meanwhile, Write(reader, writeError));
      if !writeError {
        orders := WithStatus(orders, orderId, Cancelled);
      }
      readers := readers - {reader};
      return writeError;
    }
  }

  /** No other event makes the write of a waiting handler. */
  lemma ReaderStays(s: System, e: Event, reader: nat)
    requires reader in s.readers && reader < s.nextReader && e != Write(reader, true) && e != Write(reader, false)
    ensures var t := Next(s, e);
            reader in t.readers && t.readers[reader] == s.readers[reader] && reader < t.nextReader
  {
  }

  // ------------------------------------------------- release requests bounded

  /** The saved events that ask for the stock of `orderId` to be released. */
  ghost function ReleaseRequests(outbox: seq<OrderEvent>, orderId: nat): nat {
    if outbox == [] then 0
    else ReleaseRequests(outbox[..|outbox| - 1], orderId) + if outbox[|outbox| - 1] == OrderCancelled(orderId) then 1 else 0
  }

  ghost function Count(writes: seq<nat>, orderId: nat): nat {
    if writes == [] then 0
    else Count(writes[..|writes| - 1], orderId) + if writes[|writes| - 1] == orderId then 1 else 0
  }

  lemma RequestsSnoc(outbox: seq<OrderEvent>, e: OrderEvent, orderId: nat)
    ensures ReleaseRequests(outbox + [e], orderId)
            == ReleaseRequests(outbox, orderId) + if e == OrderCancelled(orderId) then 1 else 0
  {
    assert (outbox + [e])[..|outbox + [e]| - 1] == outbox;
  }

  lemma CountSnoc(writes: seq<nat>, w: nat, orderId: nat)
    ensures Count(writes + [w], orderId) == Count(writes, orderId) + if w == orderId then 1 else 0
  {
    assert (writes + [w])[..|writes + [w]| - 1] == writes;
  }

  ghost predicate RequestsBounded(db: Db, writes: seq<nat>, orderId: nat) {
    && ReleaseRequests(db.outbox, orderId) + (if Cancellable(db.orders, orderId) then 1 else 0) <= 1 + Count(writes, orderId)
    && (orderId !in db.orders && db.nextId <= orderId ==> ReleaseRequests(db.outbox, orderId) == 0)
  }

  ghost predicate IdsBelow(db: Db) {
    forall id :: id in db.orders ==> id < db.nextId
  }

  lemma CreateBounded(db: Db, key: string, items: seq<Item>, userId: int, writes: seq<nat>, orderId: nat)
    requires IdsBelow(db) && RequestsBounded(db, writes, orderId)
    requires CreateTx(db, key, items, userId, false).Some?
    ensures RequestsBounded(CreateTx(db, key, items, userId, false).value, writes, orderId)
  {
    var order := NewOrder(db, key, items, userId);
    var after := CreateTx(db, key, items, userId, false).value;
    RequestsSnoc(db.outbox, OrderCreated(order), orderId);
    RequestsSnoc(db.outbox + [OrderCreated(order)], CancelDelay(order), orderId);
    assert after.outbox == db.outbox + [OrderCreated(order)] + [CancelDelay(order)];
  }

  lemma CancelBounded(db: Db, cancelled: nat, writes: seq<nat>, orderId: nat)
    requires RequestsBounded(db, writes, orderId)
    requires CancelTx(db, cancelled, false).Some?
    ensures RequestsBounded(CancelTx(db, cancelled, false).value, writes, orderId)
  {
    RequestsSnoc(db.outbox, OrderCancelled(cancelled), orderId);
  }

  lemma ConfirmBounded(db: Db, confirmed: nat, writes: seq<nat>, orderId: nat)
    requires RequestsBounded(db, writes, orderId)
    ensures RequestsBounded(db.(orders := WithStatus(db.orders, confirmed, Confirmed)), writes + [confirmed], orderId)
  {
    CountSnoc(writes, confirmed, orderId);
  }

  lemma ExpireBounded(db: Db, expired: nat, writes: seq<nat>, orderId: nat)
    requires RequestsBounded(db, writes, orderId)
    ensures RequestsBounded(db.(orders := WithStatus(db.orders, expired, Cancelled)), writes, orderId)
  {
  }

  lemma StepBounded(s: System, e: Event, orderId: nat)
    requires IdsBelow(s.db) && RequestsBounded(s.db, s.writes, orderId)
    ensures RequestsBounded(Next(s, e).db, Next(s, e).writes, orderId)
  {
    match e
    case Create(key, items, userId, cached, refused) =>
      if !cached && !refused && !KeyTaken(s.db.orders, key) {
        CreateBounded(s.db, key, items, userId, s.writes, orderId);
      }
    case SkipId =>
    case Cancel(id, fault) =>
      if !fault && Cancellable(s.db.orders, id) {
        CancelBounded(s.db, id, s.writes, orderId);
      }
    case PaymentMessage(id, _, _) => ConfirmBounded(s.db, id, s.writes, orderId);
    case Read(_) =>
    case Write(reader, _) =>
      if reader in s.readers {
        ExpireBounded(s.db, s.readers[reader], s.writes, orderId);
      }
  }

  // ------------------------------------------------------- orders and events

  ghost function CreatedOrders(outbox: seq<OrderEvent>): seq<Order> {
    if outbox == [] then []
    else
      var last := outbox[|outbox| - 1];
      CreatedOrders(outbox[..|outbox| - 1]) + if last.OrderCreated? then [last.order] else []
  }

  ghost function DelayedOrders(outbox: seq<OrderEvent>): seq<Order> {
    if outbox == [] then []
    else
      var last := outbox[|outbox| - 1];
      DelayedOrders(outbox[..|outbox| - 1]) + if last.CancelDelay? then [last.order] else []
  }

  lemma EventsSnoc(outbox: seq<OrderEvent>, e: OrderEvent)
    ensures CreatedOrders(outbox + [e]) == CreatedOrders(outbox) + if e.OrderCreated? then [e.order] else []
    ensures DelayedOrders(outbox + [e]) == DelayedOrders(outbox) + if e.CancelDelay? then [e.order] else []
  {
    assert (outbox + [e])[..|outbox + [e]| - 1] == outbox;
  }

  ghost predicate DistinctIds(orders: seq<Order>) {
    forall i, j :: 0 <= i < j < |orders| ==> orders[i].id != orders[j].id
  }

  ghost function Ids(orders: seq<Order>): set<nat> {
    set o | o in orders :: o.id
  }

  /** The payloads of the created events are the orders of the table, once each,
      as they were when created; the delayed-cancel events carry the same payloads. */
  ghost predicate Corresponds(db: Db) {
    var created := CreatedOrders(db.outbox);
    && DistinctIds(created)
    && DelayedOrders(db.outbox) == created
    && db.orders.Keys == Ids(created)
    && (forall o :: o in created ==> IsRowOf(o, db.orders))
  }

  /** `o` is the creation image of its row. */
  ghost predicate IsRowOf(o: Order, orders: map<nat, Order>) {
    o.id in orders && o == orders[o.id].(status := Pending) && o.total == Value(o.items)
  }

  ghost predicate KeysUnique(orders: map<nat, Order>) {
    forall a, b :: a in orders && b in orders && orders[a].idempotencyKey == orders[b].idempotencyKey ==> a == b
  }

  ghost predicate Inv(s: System) {
    && IdsBelow(s.db)
    && (forall id: nat :: RequestsBounded(s.db, s.writes, id))
    && Corresponds(s.db)
    && KeysUnique(s.db.orders)
  }

  lemma CreateCorresponds(db: Db, key: string, items: seq<Item>, userId: int)
    requires Corresponds(db) && IdsBelow(db)
    requires CreateTx(db, key, items, userId, false).Some?
    ensures Corresponds(CreateTx(db, key, items, userId, false).value)
  {
    var order := NewOrder(db, key, items, userId);
    var after := CreateTx(db, key, items, userId, false).value;
    EventsSnoc(db.outbox, OrderCreated(order));
    EventsSnoc(db.outbox + [OrderCreated(order)], CancelDelay(order));
    assert after.outbox == db.outbox + [OrderCreated(order)] + [CancelDelay(order)];
    CreatedGrows(CreatedOrders(db.outbox), order, db.orders);
  }

  lemma CreatedGrows(created: seq<Order>, order: Order, orders: map<nat, Order>)
    requires DistinctIds(created) && orders.Keys == Ids(created)
    requires forall o :: o in created ==> IsRowOf(o, orders)
    requires order.id !in orders && order.status == Pending && order.total == Value(order.items)
    ensures DistinctIds(created + [order])
    ensures orders[order.id := order].Keys == Ids(created + [order])
    ensures forall o :: o in created + [order] ==> IsRowOf(o, orders[order.id := order])
  {
    var grown := created + [order];
    assert forall o :: o in grown <==> o in created || o == order;
    forall i | 0 <= i < |created| ensures created[i].id != order.id {
      assert created[i] in created && IsRowOf(created[i], orders);
    }
    forall o | o in grown ensures IsRowOf(o, orders[order.id := order]) {
      if o != order {
        assert IsRowOf(o, orders);
      }
    }
  }

  lemma StatusCorresponds(db: Db, orderId: nat, status: OrderStatus)
    requires Corresponds(db)
    ensures Corresponds(db.(orders := WithStatus(db.orders, orderId, status)))
  {
    var orders := WithStatus(db.orders, orderId, status);
    forall o | o in CreatedOrders(db.outbox) ensures IsRowOf(o, orders) {
      assert IsRowOf(o, db.orders);
    }
  }

  lemma CancelCorresponds(db: Db, orderId: nat)
    requires Corresponds(db) && CancelTx(db, orderId, false).Some?
    ensures Corresponds(CancelTx(db, orderId, false).value)
  {
    StatusCorresponds(db, orderId, Cancelled);
    EventsSnoc(db.outbox, OrderCancelled(orderId));
  }

  /** A used-up id. */
  lemma SkipCorresponds(db: Db, db': Db)
    requires Corresponds(db) && db'.orders == db.orders && db'.outbox == db.outbox
    ensures Corresponds(db')
  {
  }

  lemma StatusKeys(orders: map<nat, Order>, orderId: nat, status: OrderStatus)
    requires KeysUnique(orders)
    ensures KeysUnique(WithStatus(orders, orderId, status))
  {
    var after := WithStatus(orders, orderId, status);
    assert forall a :: a in after ==> a in orders && after[a].idempotencyKey == orders[a].idempotencyKey;
  }

  lemma StepKeys(s: System, e: Event)
    requires Inv(s)
    ensures KeysUnique(Next(s, e).db.orders)
  {
    match e
    case Create(_, _, _, _, _) =>
    case SkipId =>
    case Cancel(orderId, _) => StatusKeys(s.db.orders, orderId, Cancelled);
    case PaymentMessage(orderId, _, _) => StatusKeys(s.db.orders, orderId, Confirmed);
    case Read(_) =>
    case Write(reader, _) =>
      if reader in s.readers {
        StatusKeys(s.db.orders, s.readers[reader], Cancelled);
      }
  }

  lemma StepCorresponds(s: System, e: Event)
    requires Inv(s)
    ensures Corresponds(Next(s, e).db)
  {
    if Next(s, e).db.outbox == s.db.outbox && Next(s, e).db.orders == s.db.orders {
      SkipCorresponds(s.db, Next(s, e).db);
    } else {
      match e
      case Create(key, items, userId, _, _) => CreateCorresponds(s.db, key, items, userId);
      case Cancel(orderId, _) => CancelCorresponds(s.db, orderId);
      case PaymentMessage(orderId, _, _) => StatusCorresponds(s.db, orderId, Confirmed);
      case Write(reader, _) => StatusCorresponds(s.db, s.readers[reader], Cancelled);
    }
  }

  lemma StepInv(s: System, e: Event)
    requires Inv(s)
    ensures Inv(Next(s, e))
  {
    StepCorresponds(s, e);
    StepKeys(s, e);
    forall id: nat ensures RequestsBounded(Next(s, e).db, Next(s, e).writes, id) {
      StepBounded(s, e, id);
    }
  }

  lemma {:induction false} RunInv(s: System, events: seq<Event>)
    requires Inv(s)
    ensures Inv(After(s, events))
    decreases |events|
  {
    if events != [] {
      StepInv(s, events[0]);
      RunInv(Next(s, events[0]), events[1..]);
    }
  }

  /** In every run, the release requests of an order, plus one while it can still be
      cancelled, never exceed one more than the payment-status writes to it; with no
      such write, its stock is asked back at most once. */
  lemma ReleasesBounded(events: seq<Event>, orderId: nat)
    ensures var s := After(EMPTY, events);
            && ReleaseRequests(s.db.outbox, orderId) + (if Cancellable(s.db.orders, orderId) then 1 else 0)
               <= 1 + Count(s.writes, orderId)
            && (orderId !in s.writes ==> ReleaseRequests(s.db.outbox, orderId) <= 1)
  {
    RunInv(EMPTY, events);
    var s := After(EMPTY, events);
    assert RequestsBounded(s.db, s.writes, orderId);
    if orderId !in s.writes {
      NoWrites(s.writes, orderId);
    }
  }

  lemma {:induction false} NoWrites(writes: seq<nat>, orderId: nat)
    requires orderId !in writes
    ensures Count(writes, orderId) == 0
  {
    if writes != [] {
      NoWrites(writes[..|writes| - 1], orderId);
    }
  }

  /** In every run, with any cache contents and any refused statement: orders,
      created events and delayed-cancel events correspond one to one, each payload is
      the order as created, and an idempotency key names at most one order. */
  lemma OrdersAndEvents(events: seq<Event>)
    ensures Corresponds(After(EMPTY, events).db)
    ensures KeysUnique(After(EMPTY, events).db.orders)
  {
    RunInv(EMPTY, events);
  }

  /** What a caller asked for. */
  datatype Request = Request(key: string, userId: int, items: seq<Item>)

  /** The creations that go through, in order: neither the cache nor a refused
      statement stops them, and no order has their key yet. */
  ghost function Granted(s: System, events: seq<Event>): seq<Request>
    decreases |events|
  {
    if events == [] then []
    else
      var e := events[0];
      (if e.Create? && !e.cached && !e.refused && (forall id :: id in s.db.orders ==> s.db.orders[id].idempotencyKey != e.key)
       then [Request(e.key, e.userId, e.items)] else [])
      + Granted(Next(s, e), events[1..])
  }

  ghost function Asked(orders: seq<Order>): (requests: seq<Request>)
    ensures |requests| == |orders|
  {
    seq(|orders|, i requires 0 <= i < |orders| => Request(orders[i].idempotencyKey, orders[i].userId, orders[i].items))
  }

  lemma StepAsked(s: System, e: Event)
    ensures Asked(CreatedOrders(Next(s, e).db.outbox)) == Asked(CreatedOrders(s.db.outbox)) + Granted(s, [e])
  {
    assert [e][1..] == [];
    match e
    case Create(key, items, userId, cached, refused) =>
      if !cached && !refused && !KeyTaken(s.db.orders, key) {
        CreatedAsked(s.db, key, items, userId);
      }
    case Cancel(orderId, fault) => EventsSnoc(s.db.outbox, OrderCancelled(orderId));
    case _ =>
  }

  lemma CreatedAsked(db: Db, key: string, items: seq<Item>, userId: int)
    requires CreateTx(db, key, items, userId, false).Some?
    ensures Asked(CreatedOrders(CreateTx(db, key, items, userId, false).value.outbox))
            == Asked(CreatedOrders(db.outbox)) + [Request(key, userId, items)]
  {
    var order := NewOrder(db, key, items, userId);
    var after := CreateTx(db, key, items, userId, false).value;
    EventsSnoc(db.outbox, OrderCreated(order));
    EventsSnoc(db.outbox + [OrderCreated(order)], CancelDelay(order));
    assert after.outbox == db.outbox + [OrderCreated(order)] + [CancelDelay(order)];
  }

  lemma {:induction false} AskedFrom(s: System, events: seq<Event>)
    ensures Asked(CreatedOrders(After(s, events).db.outbox)) == Asked(CreatedOrders(s.db.outbox)) + Granted(s, events)
    decreases |events|
  {
    if events != [] {
      var e := events[0];
      StepAsked(s, e);
      AskedFrom(Next(s, e), events[1..]);
      assert [e][1..] == [];
      Associative(Asked(CreatedOrders(s.db.outbox)), Granted(s, [e]), Granted(Next(s, e), events[1..]));
    }
  }

  /** In every run the created events are, in order, the creations that went through,
      with their own key, user and items; each has the exact value of its items as
      total; and there is one row of the table for each. */
  lemma CreatedAsAsked(events: seq<Event>)
    ensures var s := After(EMPTY, events);
            var created := CreatedOrders(s.db.outbox);
            && Asked(created) == Granted(EMPTY, events)
            && (forall o :: o in created ==> o.total == Value(o.items) && o.status == Pending)
            && (forall o :: o in created ==>
                  && o.id in s.db.orders
                  && s.db.orders[o.id].idempotencyKey == o.idempotencyKey && s.db.orders[o.id].userId == o.userId
                  && s.db.orders[o.id].items == o.items && s.db.orders[o.id].total == o.total)
            && |s.db.orders| == |created|
  {
    AskedFrom(EMPTY, events);
    RunInv(EMPTY, events);
    var s := After(EMPTY, events);
    var created := CreatedOrders(s.db.outbox);
    forall o | o in created
      ensures o.id in s.db.orders && o.total == Value(o.items) && o.status == Pending
      ensures s.db.orders[o.id].(status := Pending) == o
    {
      assert IsRowOf(o, s.db.orders);
    }
    OrderCount(created);
    assert |s.db.orders| == |s.db.orders.Keys|;
  }

  lemma {:induction false} OrderCount(created: seq<Order>)
    requires DistinctIds(created)
    ensures |Ids(created)| == |created|
  {
    if created != [] {
      var n := |created| - 1;
      assert created == created[..n] + [created[n]];
      OrderCount(created[..n]);
      assert Ids(created) == Ids(created[..n]) + {created[n].id};
    }
  }

  lemma StepKeepsOrder(s: System, e: Event, orderId: nat)
    requires IdsBelow(s.db) && orderId in s.db.orders
    ensures IdsBelow(Next(s, e).db) && orderId in Next(s, e).db.orders
    ensures var before, after := s.db.orders[orderId], Next(s, e).db.orders[orderId];
            && before.(status := Pending) == after.(status := Pending)
            && (before.status != Pending ==> after.status != Pending)
  {
  }

  /** An order that has left pending never returns to it, and no order disappears
      or changes anything but its status. */
  lemma {:induction false} NeverPendingAgain(s: System, events: seq<Event>, orderId: nat)
    requires IdsBelow(s.db) && orderId in s.db.orders
    ensures orderId in After(s, events).db.orders
    ensures var before, after := s.db.orders[orderId], After(s, events).db.orders[orderId];
            && before.(status := Pending) == after.(status := Pending)
            && (before.status != Pending ==> after.status != Pending)
    decreases |events|
  {
    if events != [] {
      StepKeepsOrder(s, events[0], orderId);
      NeverPendingAgain(Next(s, events[0]), events[1..], orderId);
    }
  }

  // ------------------------------------------------------ the bound is reached

  /** One order that is cancelled, and then confirmed by a payment message and
      cancelled again, `n` times over. */
  ghost function Rounds(items: seq<Item>, n: nat): seq<Event> {
    if n == 0 then [Create("key", items, 0, false, false), Cancel(1, false)]
    else Rounds(items, n - 1) + [PaymentMessage(1, PaymentCancelled, false)] + [Cancel(1, false)]
  }

  lemma FirstRound(items: seq<Item>)
    ensures var s := After(EMPTY, Rounds(items, 0));
            && 1 in s.db.orders && s.db.orders[1].status == Cancelled
            && ReleaseRequests(s.db.outbox, 1) == 1 && s.writes == []
  {
    var create, cancel := Create("key", items, 0, false, false), Cancel(1, false);
    var s := Next(EMPTY, create);
    var order := NewOrder(EMPTY.db, "key", items, 0);
    assert s.db.outbox == [] + [OrderCreated(order)] + [CancelDelay(order)];
    RequestsSnoc([], OrderCreated(order), 1);
    RequestsSnoc([OrderCreated(order)], CancelDelay(order), 1);
    RequestsSnoc(s.db.outbox, OrderCancelled(1), 1);
    AfterSnoc(EMPTY, [create], cancel);
    assert After(EMPTY, [create]) == s by {
      AfterSnoc(EMPTY, [], create);
      assert [] + [create] == [create];
    }
    assert [create] + [cancel] == Rounds(items, 0);
  }

  lemma OneRound(s: System)
    requires 1 in s.db.orders && s.db.orders[1].status == Cancelled
    ensures var t := Next(Next(s, PaymentMessage(1, PaymentCancelled, false)), Cancel(1, false));
            && 1 in t.db.orders && t.db.orders[1].status == Cancelled
            && Count(t.writes, 1) == Count(s.writes, 1) + 1
            && ReleaseRequests(t.db.outbox, 1) == ReleaseRequests(s.db.outbox, 1) + 1
  {
    CountSnoc(s.writes, 1, 1);
    RequestsSnoc(s.db.outbox, OrderCancelled(1), 1);
  }

  /** The bound on release requests is reached for every number of payment
      messages: n of them can lead to n + 1 requests. */
  lemma {:induction false} ReleasesTight(items: seq<Item>, n: nat)
    ensures var s := After(EMPTY, Rounds(items, n));
            && 1 in s.db.orders && s.db.orders[1].status == Cancelled
            && Count(s.writes, 1) == n
            && ReleaseRequests(s.db.outbox, 1) == 1 + Count(s.writes, 1)
  {
    if n == 0 {
      FirstRound(items);
    } else {
      ReleasesTight(items, n - 1);
      var before, pay := Rounds(items, n - 1), PaymentMessage(1, PaymentCancelled, false);
      AfterSnoc(EMPTY, before, pay);
      AfterSnoc(EMPTY, before + [pay], Cancel(1, false));
      OneRound(After(EMPTY, before));
    }
  }

  // ------------------------------------------------- the write of the timeout

  /** The event takes a pending order out of that status: a cancellation or an
      accepted payment message for it, or the write of another handler. */
  ghost predicate Settles(s: System, e: Event, orderId: nat) {
    match e
    case Cancel(id, fault) => id == orderId && !fault
    case PaymentMessage(id, status, fault) => id == orderId && !fault && !status.OtherStatus?
    case Write(reader, fault) => !fault && reader in s.readers && s.readers[reader] == orderId
    case _ => false
  }

  ghost predicate SettledDuring(s: System, events: seq<Event>, orderId: nat)
    decreases |events|
  {
    events != [] && (Settles(s, events[0], orderId) || SettledDuring(Next(s, events[0]), events[1..], orderId))
  }

  lemma {:induction false} LeavesPending(s: System, events: seq<Event>, orderId: nat)
    requires IdsBelow(s.db) && IsPending(s.db.orders, orderId)
    ensures IsPending(After(s, events).db.orders, orderId) <==> !SettledDuring(s, events, orderId)
    decreases |events|
  {
    if events != [] {
      var t := Next(s, events[0]);
      StepKeepsOrder(s, events[0], orderId);
      if Settles(s, events[0], orderId) {
        NeverPendingAgain(t, events[1..], orderId);
      } else {
        LeavesPending(t, events[1..], orderId);
      }
    }
  }

  lemma {:induction false} ReaderWaits(s: System, events: seq<Event>, reader: nat)
    requires reader in s.readers && reader < s.nextReader
    requires forall e :: e in events && e.Write? ==> e.reader != reader
    ensures reader in After(s, events).readers && After(s, events).readers[reader] == s.readers[reader]
    decreases |events|
  {
    if events != [] {
      HeadTail(events);
      ReaderStays(s, events[0], reader);
      ReaderWaits(Next(s, events[0]), events[1..], reader);
    }
  }

  /** What the unguarded write does. A handler reads a pending order, `events`
      happen, and it writes: the order ends up cancelled in any case and nobody is
      asked to release its stock. The write overrides a status that is no longer
      pending exactly when one of the events in between has settled the order. */
  lemma TimeoutOverrides(s: System, events: seq<Event>, orderId: nat)
    requires IdsBelow(s.db) && IsPending(s.db.orders, orderId)
    requires forall e :: e in events && e.Write? ==> e.reader != s.nextReader
    ensures var read := Next(s, Read(orderId));
            var mid := After(read, events);
            var end := Next(mid, Write(s.nextReader, false));
            && orderId in mid.db.orders && orderId in end.db.orders
            && end.db.orders[orderId].status == Cancelled
            && end.db.outbox == mid.db.outbox
            && (mid.db.orders[orderId].status != Pending <==> SettledDuring(read, events, orderId))
  {
    var read := Next(s, Read(orderId));
    ReaderWaits(read, events, s.nextReader);
    NeverPendingAgain(read, events, orderId);
    LeavesPending(read, events, orderId);
  }

  /** A paid order that its timeout cancels, with no release of its stock. */
  lemma PaidThenCancelled(items: seq<Item>)
    ensures var s := After(EMPTY, [Create("key", items, 0, false, false), Read(1), PaymentMessage(1, Paid, false), Write(0, false)]);
            && 1 in s.db.orders && s.db.orders[1].status == Cancelled
            && Count(s.writes, 1) == 1 && ReleaseRequests(s.db.outbox, 1) == 0
  {
    var create, pay := Create("key", items, 0, false, false), PaymentMessage(1, Paid, false);
    var s := Next(EMPTY, create);
    var order := NewOrder(EMPTY.db, "key", items, 0);
    assert s.db.outbox == [] + [OrderCreated(order)] + [CancelDelay(order)];
    RequestsSnoc([], OrderCreated(order), 1);
    RequestsSnoc([OrderCreated(order)], CancelDelay(order), 1);
    CountSnoc([], 1, 1);
    AfterSnoc(EMPTY, [], create);
    AfterSnoc(EMPTY, [create], Read(1));
    AfterSnoc(EMPTY, [create, Read(1)], pay);
    AfterSnoc(EMPTY, [create, Read(1), pay], Write(0, false));
    assert [] + [create] == [create] && [create] + [Read(1)] == [create, Read(1)];
    assert [create, Read(1)] + [pay] == [create, Read(1), pay];
    assert [create, Read(1), pay] + [Write(0, false)] == [create, Read(1), pay, Write(0, false)];
  }
}
