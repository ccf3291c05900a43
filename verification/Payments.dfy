/** Payment rows, provider callbacks, and the status events saved with them. */
module Payments {
  import opened Basics
  import Money

  datatype PaymentStatus = Unspecified | Pending | Cancelled | Paid

  datatype Payment = Payment(orderId: int, userId: int, externalId: string, amount: real, status: PaymentStatus)

  datatype StatusMessage = StatusMessage(orderId: int, status: PaymentStatus)

  // ---------------------------------------------------- reading one callback

  datatype EventType = Completed | AsyncSucceeded | AsyncFailed | Expired | OtherEvent

  /** A decoded provider event; `orderId` is absent when the metadata has none or
      it is not a number. */
  datatype StripeEvent = StripeEvent(eventType: EventType, paid: bool, orderId: Option<int>)

  function HandleStripeCallback(body: Option<StripeEvent>): (result: Option<StatusMessage>)
    ensures result.Some? <==> body.Some? && body.value.orderId.Some? && !body.value.eventType.OtherEvent?
    ensures result.Some? ==> result.value.orderId == body.value.orderId.value
    ensures result.Some? ==> result.value.status == Paid || result.value.status == Cancelled
    ensures result.Some? ==>
              (result.value.status == Paid <==>
                 body.value.paid && !body.value.eventType.AsyncFailed? && !body.value.eventType.Expired?)
  {
    if body.None? || body.value.orderId.None? then None
    else
      var orderId := body.value.orderId.value;
      match body.value.eventType
      case Completed => Some(StatusMessage(orderId, if !body.value.paid then Cancelled else Paid))
      case AsyncSucceeded => Some(StatusMessage(orderId, if !body.value.paid then Cancelled else Paid))
      case AsyncFailed => Some(StatusMessage(orderId, Cancelled))
      case Expired => Some(StatusMessage(orderId, Cancelled))
      case OtherEvent => None
  }

  // ------------------------------------------------------- the table in place

  /** UPDATE ... WHERE order_id = ? AND status = 'pending'. */
  function Settled(payments: seq<Payment>, orderId: int, status: PaymentStatus): (after: seq<Payment>)
    ensures |after| == |payments|
    ensures forall i :: 0 <= i < |payments| ==>
              after[i] == if payments[i].orderId == orderId && payments[i].status == Pending
                          then payments[i].(status := status) else payments[i]
  {
    seq(|payments|, i requires 0 <= i < |payments| =>
      if payments[i].orderId == orderId && payments[i].status == Pending
      then payments[i].(status := status) else payments[i])
  }

  /** The payment table, by row number, and the payment outbox. */
  datatype Db = Db(payments: seq<Payment>, outbox: seq<StatusMessage>)

  function CreateTx(db: Db, p: Payment, refused: bool): Option<Db> {
    if refused || (exists q :: q in db.payments && q.externalId == p.externalId) then None
    else Some(db.(payments := db.payments + [p]))
  }

  function CallbackTx(db: Db, body: Option<StripeEvent>, fault: bool): Option<Db> {
    var result := HandleStripeCallback(body);
    if result.None? || fault then None
    else Some(Db(Settled(db.payments, result.value.orderId, result.value.status), db.outbox + [result.value]))
  }

  class PaymentUsecase {
    var payments: seq<Payment>
    var outbox: seq<StatusMessage>

    constructor ()
      ensures Contents() == Db([], [])
    {
      payments, outbox := [], [];
    }

    function Contents(): Db
      reads this
    {
      Db(payments, outbox)
    }

    /** `cached` is whatever the duplicate check finds in Redis. */
    method CreatePayment(orderId: int, userId: int, externalId: string, amount: real, cached: bool, fault: bool)
      returns (err: bool)
      modifies this
      ensures var result := CreateTx(old(Contents()), Payment(orderId, userId, externalId, amount, Pending), cached || fault);
              && err == result.None?
              && Contents() == if err then old(Contents()) else result.value
      ensures err <==> cached || fault || exists p :: p in old(payments) && p.externalId == externalId
      ensures err ==> payments == old(payments)
      ensures !err ==> payments == old(payments) + [Payment(orderId, userId, externalId, amount, Pending)]
      ensures outbox == old(outbox)
    {
      if cached {
        return true;
      }
      for i := 0 to |payments|
        invariant forall j :: 0 <= j < i ==> payments[j].externalId != externalId
        invariant Contents() == old(Contents())
      {
        if payments[i].externalId == externalId {
          return true;
        }
      }
      if fault {
        return true;
      }
      payments := payments + [Payment(orderId, userId, externalId, amount, Pending)];
      return false;
    }

    /** Checkout: the provider opens a session for the priced items and reports their
        total, which is stored with the payment. `providerError` is a failing call. */
    method CreateStripePayment(orderId: int, userId: int, items: seq<Money.Item>, sessionId: string,
                               providerError: bool, cached: bool, fault: bool) returns (err: bool)
      modifies this
      ensures err <==> providerError || cached || fault || exists p :: p in old(payments) && p.externalId == sessionId
      ensures err ==> Contents() == old(Contents())
      ensures !err ==>
                && outbox == old(outbox)
                && |payments| == |old(payments)| + 1 && payments[..|old(payments)|] == old(payments)
                && var p := payments[|old(payments)|];
                   && p.orderId == orderId && p.userId == userId && p.externalId == sessionId && p.status == Pending
                   && 100.0 * p.amount == Money.AmountTotal(Money.LinesOf(items)) as real
                   && ((forall item :: item in items ==> Money.TwoDecimals(item.unitPrice)) ==> p.amount == Money.Value(items))
    {
      if providerError {
        return true;
      }
      var lines := Money.StripeLineItems(items);
      var amountTotal := Money.SessionTotal(lines);
      err := CreatePayment(orderId, userId, sessionId, Money.PaymentAmount(amountTotal), cached, fault);
      if forall item :: item in items ==> Money.TwoDecimals(item.unitPrice) {
        Money.MoneyConserved(items);
      }
    }

    method UpdatePaymentStatusByOrderID(orderId: int, status: PaymentStatus)
      modifies this`payments
      ensures payments == Settled(old(payments), orderId, status)
      ensures |payments| == |old(payments)|
      ensures forall i :: 0 <= i < |payments| ==>
                var p := old(payments)[i];
                payments[i] == if p.orderId == orderId && p.status == Pending
                               then Payment(p.orderId, p.userId, p.externalId, p.amount, status) else p
    {
      for i := 0 to |payments|
        invariant |payments| == |old(payments)|
        invariant forall j :: 0 <= j < i ==> payments[j] == Settled(old(payments), orderId, status)[j]
        invariant forall j :: i <= j < |payments| ==> payments[j] == old(payments)[j]
      {
        if payments[i].orderId == orderId && payments[i].status == Pending {
          payments := payments[i := payments[i].(status := status)];
        }
      }
    }

    /** The flags are the statements the database refuses. */
    method Callback(body: Option<StripeEvent>, updateError: bool, saveError: bool, commitError: bool) returns (err: bool)
      modifies this
      ensures var result := CallbackTx(old(Contents()), body, updateError || saveError || commitError);
              && err == result.None?
              && Contents() == if err then old(Contents()) else result.value
      ensures err <==> updateError || saveError || commitError || HandleStripeCallback(body).None?
      ensures !err ==>
                var message := HandleStripeCallback(body).value;
                && outbox == old(outbox) + [message]
                && |payments| == |old(payments)|
                && forall i :: 0 <= i < |payments| ==>
                     var p := old(payments)[i];
                     payments[i] == if p.orderId == message.orderId && p.status == Pending
                                    then Payment(p.orderId, p.userId, p.externalId, p.amount, message.status) else p
    {
      var result := HandleStripeCallback(body);
      if result.None? {
        return true;
      }
      var savedPayments, savedOutbox := payments, outbox;
      err := updateError;
      if !err {
        UpdatePaymentStatusByOrderID(result.value.orderId, result.value.status);
        err := saveError;
      }
      if !err {
        outbox := outbox + [result.value];
        err := commitError;
      }
      if err {
        payments, outbox := savedPayments, savedOutbox;
      }
    }
  }

  // -------------------------------------------------------------------- runs

  datatype Event =
    | Create(orderId: int, userId: int, externalId: string, amount: real, refused: bool)
    | Call(body: Option<StripeEvent>, fault: bool)

  function Tx(db: Db, e: Event): Option<Db> {
    match e
    case Create(orderId, userId, externalId, amount, refused) =>
      CreateTx(db, Payment(orderId, userId, externalId, amount, Pending), refused)
    case Call(body, fault) => CallbackTx(db, body, fault)
  }

  function Next(db: Db, e: Event): Db {
    var result := Tx(db, e);
    if result.Some? then result.value else db
  }

  ghost function After(db: Db, events: seq<Event>): Db
    decreases |events|
  {
    if events == [] then db else After(Next(db, events[0]), events[1..])
  }

  /** The callback is read, and nothing is refused. */
  ghost predicate Goes(e: Event) {
    e.Call? && !e.fault && HandleStripeCallback(e.body).Some?
  }

  /** The status of the first committed callback for an order, if there is one. */
  ghost function FirstOutcome(events: seq<Event>, orderId: int): Option<PaymentStatus> {
    if events == [] then None
    else
      var e := events[0];
      if Goes(e) && HandleStripeCallback(e.body).value.orderId == orderId then Some(HandleStripeCallback(e.body).value.status)
      else FirstOutcome(events[1..], orderId)
  }

  /** A pending row takes the status of the first committed callback for its order
      and stays pending if there is none; nothing else in it changes. */
  lemma {:induction false} SettlesOnce(db: Db, events: seq<Event>, i: nat)
    requires i < |db.payments|
    ensures i < |After(db, events).payments|
    ensures After(db, events).payments[i] ==
            if db.payments[i].status != Pending then db.payments[i]
            else
              var first := FirstOutcome(events, db.payments[i].orderId);
              db.payments[i].(status := if first.Some? then first.value else Pending)
    decreases |events|
  {
    if events != [] {
      SettlesOnce(Next(db, events[0]), events[1..], i);
    }
  }

  /** From its creation on, a payment carries what it was created with, and it takes
      the status of the first committed callback for its own order; a creation is
      refused exactly if a statement or the cache refuses it or its session is known. */
  lemma CreatedThenSettled(db: Db, e: Event, events: seq<Event>)
    requires e.Create?
    ensures var taken := e.refused || exists p :: p in db.payments && p.externalId == e.externalId;
            && (taken ==> After(db, [e] + events) == After(db, events))
            && (!taken ==>
                  && |db.payments| < |After(db, [e] + events).payments|
                  && After(db, [e] + events).payments[|db.payments|] ==
                     Payment(e.orderId, e.userId, e.externalId, e.amount,
                             if FirstOutcome(events, e.orderId).Some? then FirstOutcome(events, e.orderId).value else Pending))
  {
    assert ([e] + events)[1..] == events;
    if !e.refused && !exists p :: p in db.payments && p.externalId == e.externalId {
      SettlesOnce(Next(db, e), events, |db.payments|);
    }
  }

  /** No settled row without its event. */
  ghost predicate Announced(db: Db) {
    forall p :: p in db.payments && p.status != Pending ==> StatusMessage(p.orderId, p.status) in db.outbox
  }

  ghost predicate ExternalIdsUnique(db: Db) {
    forall i, j :: 0 <= i < j < |db.payments| ==> db.payments[i].externalId != db.payments[j].externalId
  }

  /** The events of the committed callbacks, in order. */
  ghost function Callbacks(events: seq<Event>): seq<StatusMessage> {
    if events == [] then []
    else (if Goes(events[0]) then [HandleStripeCallback(events[0].body).value] else []) + Callbacks(events[1..])
  }

  /** In every run the outbox holds exactly the committed callbacks, every row that
      left pending is announced there, and no external session has two rows. */
  lemma {:induction false} NeverSilent(db: Db, events: seq<Event>)
    requires Announced(db) && ExternalIdsUnique(db)
    ensures Announced(After(db, events)) && ExternalIdsUnique(After(db, events))
    ensures After(db, events).outbox == db.outbox + Callbacks(events)
    decreases |events|
  {
    if events != [] {
      var next := Next(db, events[0]);
      forall p | p in next.payments && p.status != Pending ensures StatusMessage(p.orderId, p.status) in next.outbox {
        var i :| 0 <= i < |next.payments| && next.payments[i] == p;
        if i < |db.payments| {
          assert db.payments[i] in db.payments;
        }
      }
      NeverSilent(next, events[1..]);
    }
  }
}
