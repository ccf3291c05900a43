/** The reservation ledger: what the inventory transactions add up to over whole
    runs, under any repetition of messages and any failing statement. */
module InventoryLedger {
  import opened Basics
  import opened Inventory

  /** One committed reservation. */
  datatype Entry = Entry(orderId: int, items: seq<Item>)

  /** What `items` order of one SKU; a repeated SKU counts each time. */
  ghost function Total(items: seq<Item>, sku: nat): int {
    if items == [] then 0
    else
      var last := items[|items| - 1];
      Total(items[..|items| - 1], sku) + if last.sku == sku then last.quantity else 0
  }

  ghost predicate StillLocked(locks: map<int, Lock>, orderId: int) {
    orderId in locks && locks[orderId].status == Locked
  }

  /** The sum of one SKU over the payloads of the locks that are still locked. */
  ghost function Outstanding(applied: seq<Entry>, locks: map<int, Lock>, sku: nat): int {
    if applied == [] then 0
    else
      var last := applied[|applied| - 1];
      Outstanding(applied[..|applied| - 1], locks, sku)
      + if StillLocked(locks, last.orderId) then Total(last.items, sku) else 0
  }

  ghost function Orders(applied: seq<Entry>): set<int> {
    set e | e in applied :: e.orderId
  }

  ghost predicate DistinctOrders(applied: seq<Entry>) {
    forall i, j :: 0 <= i < j < |applied| ==> applied[i].orderId != applied[j].orderId
  }

  /** One lock per applied reservation, none besides, and every reserved quantity
      is what the locks still hold. */
  ghost predicate LedgerInv(t: Tables, applied: seq<Entry>) {
    && DistinctOrders(applied)
    && t.locks.Keys == Orders(applied)
    && (forall e :: e in applied ==> e.orderId in t.locks && t.locks[e.orderId].items == e.items)
    && (forall e, item :: e in applied && item in e.items ==> item.sku in t.inventories)
    && (forall s :: s in t.inventories ==>
          Allowed(t.inventories[s]) && t.inventories[s].reserved == Outstanding(applied, t.locks, s))
  }

  // ------------------------------------------------------ effects of the loops

  lemma {:induction false} ShiftEffect(inv: map<nat, Stock>, items: seq<Item>)
    requires Shift(inv, Reservations(items), {ReservedQuantity}).Some?
    requires forall s :: s in inv ==> Allowed(inv[s])
    ensures var after := Shift(inv, Reservations(items), {ReservedQuantity}).value;
            && after.Keys == inv.Keys
            && forall s :: s in inv ==>
                 Allowed(after[s]) && after[s] == Stock(inv[s].stock, inv[s].reserved + Total(items, s))
  {
    if items != [] {
      var n := |items| - 1;
      assert Reservations(items)[..n] == Reservations(items[..n]);
      ShiftEffect(inv, items[..n]);
    }
  }

  /** No order is refused for its amounts unless a BIGINT would overflow. */
  lemma {:induction false} ShiftPasses(inv: map<nat, Stock>, items: seq<Item>)
    requires forall s :: s in inv ==> Allowed(inv[s])
    requires forall item :: item in items ==> 0 <= item.quantity
    ensures Shift(inv, Reservations(items), {ReservedQuantity}).Some?
            <==> forall s :: s in inv ==> inv[s].reserved + Total(items, s) <= MAX_INT64
  {
    if items != [] {
      var n := |items| - 1;
      assert Reservations(items)[..n] == Reservations(items[..n]);
      assert items == items[..n] + [items[n]];
      ShiftPasses(inv, items[..n]);
      var before := Shift(inv, Reservations(items[..n]), {ReservedQuantity});
      if before.Some? {
        ShiftEffect(inv, items[..n]);
      } else {
        var s :| s in inv && inv[s].reserved + Total(items[..n], s) > MAX_INT64;
        assert Total(items[..n], s) <= Total(items, s);
      }
    }
  }

  /** Setting negated quantities passes the CHECKs exactly when none of them,
      on an existing row, is negative. */
  ghost predicate NoneNegative(inv: map<nat, Stock>, items: seq<Item>) {
    forall item :: item in items && item.sku in inv ==> 0 <= Neg64(item.quantity)
  }

  lemma {:induction false} AssignPasses(inv: map<nat, Stock>, items: seq<Item>, deduct: bool)
    requires forall s :: s in inv ==> Allowed(inv[s])
    ensures var result := if deduct then Assign(inv, Deductions(items), {StockQuantity, ReservedQuantity})
                          else Assign(inv, Releases(items), {ReservedQuantity});
            && (result.Some? <==> NoneNegative(inv, items))
            && (result.Some? ==>
                  && result.value.Keys == inv.Keys
                  && (forall s :: s in inv ==> Allowed(result.value[s]))
                  && (items != [] && items[|items| - 1].sku in inv ==>
                        result.value[items[|items| - 1].sku].reserved == Neg64(items[|items| - 1].quantity)))
  {
    if items != [] {
      var n := |items| - 1;
      assert Deductions(items)[..n] == Deductions(items[..n]);
      assert Releases(items)[..n] == Releases(items[..n]);
      assert items == items[..n] + [items[n]];
      AssignPasses(inv, items[..n], deduct);
    }
  }

  lemma {:induction false} SameOutstanding(applied: seq<Entry>, locks: map<int, Lock>, locks': map<int, Lock>, sku: nat)
    requires forall e :: e in applied ==>
               (StillLocked(locks, e.orderId) <==> StillLocked(locks', e.orderId)) || Total(e.items, sku) == 0
    ensures Outstanding(applied, locks, sku) == Outstanding(applied, locks', sku)
  {
    if applied != [] {
      SameOutstanding(applied[..|applied| - 1], locks, locks', sku);
    }
  }

  // -------------------------------------------------- release and deduct alone

  /** A release or deduction commits exactly when the lock may be processed, no
      statement fails, and no item on an existing SKU has a positive quantity
      (or the one value whose negation overflows). */
  lemma ReleaseCommits(t: Tables, orderId: int, fault: bool)
    requires forall s :: s in t.inventories ==> Allowed(t.inventories[s])
    ensures ReleaseTx(t, orderId, fault).Some?
            <==> !fault && orderId in t.locks && NoneNegative(t.inventories, t.locks[orderId].items)
    ensures DeductTx(t, orderId, fault).Some?
            <==> !fault && StillLocked(t.locks, orderId) && NoneNegative(t.inventories, t.locks[orderId].items)
  {
    if orderId in t.locks {
      AssignPasses(t.inventories, t.locks[orderId].items, false);
      AssignPasses(t.inventories, t.locks[orderId].items, true);
    }
  }

  // ------------------------- what each transaction does, in the columns of the tables

  ghost predicate Checked(inv: map<nat, Stock>) {
    forall s :: s in inv ==> 0 <= inv[s].stock <= MAX_INT64 && 0 <= inv[s].reserved <= MAX_INT64
  }

  /** One row of a delta update, and one of a setting update, on any paths. */
  lemma RowMeaning(inv: map<nat, Stock>, d: Delta, paths: set<Column>)
    requires Checked(inv)
    ensures var stock := if d.sku in inv then inv[d.sku].stock + (if StockQuantity in paths then d.stock else 0) else 0;
            var reserved := if d.sku in inv then inv[d.sku].reserved + (if ReservedQuantity in paths then d.reserved else 0) else 0;
            ShiftRow(inv, d, paths) ==
            if (exists c :: c in paths && c.OtherColumn?) || stock < 0 || reserved < 0 || MAX_INT64 < stock || MAX_INT64 < reserved then None
            else if d.sku in inv then Some(inv[d.sku := Stock(stock, reserved)])
            else Some(inv)
    ensures var stock := if d.sku in inv && StockQuantity !in paths then inv[d.sku].stock else d.stock;
            var reserved := if d.sku in inv && ReservedQuantity !in paths then inv[d.sku].reserved else d.reserved;
            AssignRow(inv, d, paths) ==
            if d.sku !in inv then Some(inv)
            else if stock < 0 || reserved < 0 then None
            else Some(inv[d.sku := Stock(stock, reserved)])
  {
  }

  /** A reservation of positive quantities commits exactly if the order has no lock
      and no reserved quantity overflows. It adds what is ordered of each SKU to the
      reserved quantity, touches no stock, and locks the order. */
  lemma ReserveMeaning(t: Tables, orderId: int, items: seq<Item>, fault: bool)
    requires Checked(t.inventories)
    requires forall item :: item in items ==> 0 < item.quantity
    ensures var result := ReserveTx(t, orderId, items, fault);
            && (result.Some? <==>
                  && !fault && orderId !in t.locks
                  && forall s :: s in t.inventories ==> t.inventories[s].reserved + Total(items, s) <= MAX_INT64)
            && (result.Some? ==>
                  && result.value.locks == t.locks[orderId := Lock(items, Locked)]
                  && result.value.inventories.Keys == t.inventories.Keys
                  && forall s :: s in t.inventories ==>
                       result.value.inventories[s] == Stock(t.inventories[s].stock, t.inventories[s].reserved + Total(items, s)))
  {
    ShiftPasses(t.inventories, items);
    if Shift(t.inventories, Reservations(items), {ReservedQuantity}).Some? {
      ShiftEffect(t.inventories, items);
    }
  }

  /** The last quantity that `items` names for the SKU. */
  ghost function LastOf(items: seq<Item>, sku: nat): Option<int> {
    if items == [] then None
    else
      var last := items[|items| - 1];
      if last.sku == sku then Some(last.quantity) else LastOf(items[..|items| - 1], sku)
  }

  /** The rows after setting negated quantities, in stock and reserved or in reserved alone. */
  ghost predicate SetNegated(before: map<nat, Stock>, after: map<nat, Stock>, items: seq<Item>, deduct: bool) {
    && after.Keys == before.Keys
    && forall s :: s in before ==>
         var last := LastOf(items, s);
         after[s] == if last.None? then before[s] else Stock(if deduct then -last.value else before[s].stock, -last.value)
  }

  lemma {:induction false} AssignEffect(inv: map<nat, Stock>, items: seq<Item>, deduct: bool)
    requires Checked(inv)
    ensures var result := if deduct then Assign(inv, Deductions(items), {StockQuantity, ReservedQuantity})
                          else Assign(inv, Releases(items), {ReservedQuantity});
            result.Some? ==> SetNegated(inv, result.value, items, deduct)
  {
    if items != [] {
      var n := |items| - 1;
      assert Deductions(items)[..n] == Deductions(items[..n]);
      assert Releases(items)[..n] == Releases(items[..n]);
      AssignEffect(inv, items[..n], deduct);
    }
  }

  /** None of the items on an existing SKU has a positive quantity, or the one that
      has no 64-bit negation. */
  ghost predicate NonePositive(inv: map<nat, Stock>, items: seq<Item>) {
    forall item :: item in items && item.sku in inv ==> MIN_INT64 < item.quantity <= 0
  }

  /** A release commits exactly if the order has a lock, in whatever status, and no
      item on an existing SKU has a positive quantity. It sets each reserved quantity
      to the negated last one, touches no stock, and marks the lock as released. */
  lemma ReleaseMeaning(t: Tables, orderId: int, fault: bool)
    requires Checked(t.inventories)
    ensures var result := ReleaseTx(t, orderId, fault);
            && (result.Some? <==> !fault && orderId in t.locks && NonePositive(t.inventories, t.locks[orderId].items))
            && (result.Some? ==>
                  && result.value.locks == t.locks[orderId := Lock(t.locks[orderId].items, Released)]
                  && SetNegated(t.inventories, result.value.inventories, t.locks[orderId].items, false))
  {
    if orderId in t.locks {
      AssignPasses(t.inventories, t.locks[orderId].items, false);
      AssignEffect(t.inventories, t.locks[orderId].items, false);
    }
  }

  /** A deduction commits exactly if the order's lock is still locked and no item on
      an existing SKU has a positive quantity. It sets stock and reserved quantity to
      the negated last one and marks the lock as confirmed. */
  lemma DeductMeaning(t: Tables, orderId: int, fault: bool)
    requires Checked(t.inventories)
    ensures var result := DeductTx(t, orderId, fault);
            && (result.Some? <==>
                  && !fault && orderId in t.locks && t.locks[orderId].status == Locked
                  && NonePositive(t.inventories, t.locks[orderId].items))
            && (result.Some? ==>
                  && result.value.locks == t.locks[orderId := Lock(t.locks[orderId].items, Confirmed)]
                  && SetNegated(t.inventories, result.value.inventories, t.locks[orderId].items, true))
  {
    if orderId in t.locks {
      AssignPasses(t.inventories, t.locks[orderId].items, true);
      AssignEffect(t.inventories, t.locks[orderId].items, true);
    }
  }

  /** Adjusting an existing SKU commits exactly for a quantity that is not negative,
      and sets the stock to it; adjusting an absent one commits and changes nothing. */
  lemma AdjustMeaning(t: Tables, sku: nat, quantity: Int64, fault: bool)
    requires Checked(t.inventories)
    ensures var result := AdjustTx(t, sku, quantity, fault);
            && (result.Some? <==> !fault && (sku in t.inventories ==> 0 <= quantity))
            && (result.Some? ==>
                  result.value == if sku in t.inventories
                                  then Tables(t.inventories[sku := Stock(quantity, t.inventories[sku].reserved)], t.locks)
                                  else t)
  {
    var image := [Delta(sku, quantity, 0)];
    assert image[..0] == [] && Assign(t.inventories, image[..0], {StockQuantity}) == Some(t.inventories);
  }

  /** Creating commits exactly for a non-empty batch of new, distinct SKUs, and adds
      one empty row for each. */
  lemma CreateMeaning(t: Tables, skus: seq<nat>, fault: bool)
    ensures var result := CreateTx(t, skus, fault);
            && (result.Some? <==>
                  !fault && skus != [] && (forall i, j :: 0 <= i < j < |skus| ==> skus[i] != skus[j])
                  && forall s :: s in skus ==> s !in t.inventories)
            && (result.Some? ==>
                  && result.value.locks == t.locks
                  && (forall s :: s in result.value.inventories <==> s in t.inventories || s in skus)
                  && (forall s :: s in t.inventories ==> result.value.inventories[s] == t.inventories[s])
                  && (forall s :: s in skus ==> result.value.inventories[s] == Stock(0, 0)))
  {
  }

  /** The order is empty, or one of its items makes the CHECK refuse it. */
  ghost predicate SafePayload(items: seq<Item>) {
    items == [] || exists item :: item in items && Neg64(item.quantity) < 0
  }

  lemma SafeKeeps(t: Tables, applied: seq<Entry>, orderId: int, deduct: bool)
    requires LedgerInv(t, applied) && StillLocked(t.locks, orderId)
    requires SafePayload(t.locks[orderId].items)
    ensures LedgerInv(OrKeep(if deduct then DeductTx(t, orderId, false) else ReleaseTx(t, orderId, false), t), applied)
  {
    ReleaseCommits(t, orderId, false);
    var items := t.locks[orderId].items;
    var e :| e in applied && e.orderId == orderId;
    if items == [] {
      var t' := OrKeep(if deduct then DeductTx(t, orderId, false) else ReleaseTx(t, orderId, false), t);
      assert t'.inventories == t.inventories;
      forall s | s in t.inventories ensures Outstanding(applied, t.locks, s) == Outstanding(applied, t'.locks, s) {
        SameOutstanding(applied, t.locks, t'.locks, s);
      }
    } else {
      assert e.items == items;
      assert !NoneNegative(t.inventories, items);
    }
  }

  // -------------------------------------------------------------------- runs

  datatype Event =
    | Reserve(orderId: int, items: seq<Item>, fault: bool)
    | Release(orderId: int, fault: bool)
    | Deduct(orderId: int, fault: bool)
    | Adjust(sku: nat, quantity: Int64, fault: bool)
    | Create(skus: seq<nat>, fault: bool)

  datatype Ledger = Ledger(tables: Tables, applied: seq<Entry>)

  function Tx(t: Tables, e: Event): Option<Tables> {
    match e
    case Reserve(orderId, items, fault) => ReserveTx(t, orderId, items, fault)
    case Release(orderId, fault) => ReleaseTx(t, orderId, fault)
    case Deduct(orderId, fault) => DeductTx(t, orderId, fault)
    case Adjust(sku, quantity, fault) => AdjustTx(t, sku, quantity, fault)
    case Create(skus, fault) => CreateTx(t, skus, fault)
  }

  function Next(l: Ledger, e: Event): Ledger {
    var result := Tx(l.tables, e);
    Ledger(OrKeep(result, l.tables),
           if result.Some? && e.Reserve? then l.applied + [Entry(e.orderId, e.items)] else l.applied)
  }

  /** Orders ask for positive quantities of SKUs that exist. */
  ghost predicate Proper(l: Ledger, e: Event) {
    e.Reserve? ==> forall item :: item in e.items ==> 0 < item.quantity && item.sku in l.tables.inventories
  }

  ghost predicate ProperRun(l: Ledger, events: seq<Event>)
    decreases |events|
  {
    events == [] || (Proper(l, events[0]) && ProperRun(Next(l, events[0]), events[1..]))
  }

  ghost function After(l: Ledger, events: seq<Event>): Ledger
    decreases |events|
  {
    if events == [] then l else After(Next(l, events[0]), events[1..])
  }

  const EMPTY: Ledger := Ledger(Tables(map[], map[]), [])

  ghost predicate Inv(l: Ledger) {
    && LedgerInv(l.tables, l.applied)
    && (forall e, item :: e in l.applied && item in e.items ==> 0 < item.quantity)
    && (forall o :: o in l.tables.locks ==> l.tables.locks[o].status == Locked || l.tables.locks[o].items == [])
  }

  lemma {:induction false} OutstandingSnoc(applied: seq<Entry>, e: Entry, locks: map<int, Lock>, locks': map<int, Lock>, sku: nat)
    requires forall d :: d in applied ==> d.orderId != e.orderId
    requires locks' == locks[e.orderId := Lock(e.items, Locked)]
    ensures Outstanding(applied + [e], locks', sku) == Outstanding(applied, locks, sku) + Total(e.items, sku)
  {
    assert (applied + [e])[..|applied + [e]| - 1] == applied;
    SameOutstanding(applied, locks, locks', sku);
  }

  lemma NewOrder(applied: seq<Entry>, e: Entry)
    requires DistinctOrders(applied) && e.orderId !in Orders(applied)
    ensures forall d :: d in applied ==> d.orderId != e.orderId
    ensures DistinctOrders(applied + [e])
    ensures Orders(applied + [e]) == Orders(applied) + {e.orderId}
  {
    forall d | d in applied ensures d.orderId != e.orderId {
      assert d.orderId in Orders(applied);
    }
    assert forall d :: d in applied + [e] <==> d in applied || d == e;
    assert e in applied + [e];
  }

  /** The sums after one more reservation. */
  lemma ReservedSums(t: Tables, t': Tables, applied: seq<Entry>, e: Entry)
    requires forall d :: d in applied ==> d.orderId != e.orderId
    requires forall s :: s in t.inventories ==>
               Allowed(t.inventories[s]) && t.inventories[s].reserved == Outstanding(applied, t.locks, s)
    requires ReserveTx(t, e.orderId, e.items, false) == Some(t')
    ensures t'.inventories.Keys == t.inventories.Keys
    ensures forall s :: s in t'.inventories ==>
              Allowed(t'.inventories[s]) && t'.inventories[s].reserved == Outstanding(applied + [e], t'.locks, s)
  {
    ShiftEffect(t.inventories, e.items);
    forall s | s in t.inventories ensures t'.inventories[s].reserved == Outstanding(applied + [e], t'.locks, s) {
      OutstandingSnoc(applied, e, t.locks, t'.locks, s);
    }
  }

  /** A committed reservation of existing SKUs keeps the ledger consistent,
      whatever its quantities are. */
  lemma ReserveKeeps(t: Tables, t': Tables, applied: seq<Entry>, e: Entry)
    requires LedgerInv(t, applied)
    requires forall item :: item in e.items ==> item.sku in t.inventories
    requires ReserveTx(t, e.orderId, e.items, false) == Some(t')
    ensures LedgerInv(t', applied + [e])
  {
    NewOrder(applied, e);
    ReservedSums(t, t', applied, e);
    forall d | d in applied + [e]
      ensures d.orderId in t'.locks && t'.locks[d.orderId].items == d.items
      ensures forall item :: item in d.items ==> item.sku in t'.inventories
    {
      assert d in applied || d == e;
    }
  }

  lemma ReserveInv(l: Ledger, e: Event)
    requires Inv(l) && Proper(l, e) && e.Reserve? && Tx(l.tables, e).Some?
    ensures Inv(Next(l, e))
  {
    var entry, m := Entry(e.orderId, e.items), Next(l, e);
    ReserveKeeps(l.tables, m.tables, l.applied, entry);
    forall d, item | d in m.applied && item in d.items ensures 0 < item.quantity {
      assert d in l.applied || d == entry;
    }
  }

  /** Releasing an empty order that is no longer locked. */
  lemma ReleaseAgain(l: Ledger, orderId: int)
    requires Inv(l) && orderId in l.tables.locks && !StillLocked(l.tables.locks, orderId)
    ensures Inv(Next(l, Release(orderId, false)))
  {
    var t, t' := l.tables, Next(l, Release(orderId, false)).tables;
    assert t.locks[orderId].items == [];
    assert t'.inventories == t.inventories;
    forall s | s in t'.inventories ensures Outstanding(l.applied, t.locks, s) == Outstanding(l.applied, t'.locks, s) {
      SameOutstanding(l.applied, t.locks, t'.locks, s);
    }
  }

  lemma ProcessLocked(l: Ledger, orderId: int, deduct: bool)
    requires Inv(l) && StillLocked(l.tables.locks, orderId)
    ensures Inv(Next(l, if deduct then Deduct(orderId, false) else Release(orderId, false)))
  {
    var items := l.tables.locks[orderId].items;
    var e :| e in l.applied && e.orderId == orderId;
    if items != [] {
      assert e.items == items && items[0] in items && Neg64(items[0].quantity) < 0;
    }
    SafeKeeps(l.tables, l.applied, orderId, deduct);
    ReleaseCommits(l.tables, orderId, false);
    if items != [] {
      assert Next(l, if deduct then Deduct(orderId, false) else Release(orderId, false)) == l;
    }
  }

  lemma ProcessInv(l: Ledger, orderId: int, fault: bool, deduct: bool)
    requires Inv(l)
    ensures Inv(Next(l, if deduct then Deduct(orderId, fault) else Release(orderId, fault)))
  {
    if !fault && orderId in l.tables.locks {
      if StillLocked(l.tables.locks, orderId) {
        ProcessLocked(l, orderId, deduct);
      } else if !deduct {
        ReleaseAgain(l, orderId);
      }
    }
  }

  lemma {:induction false} AbsentSku(applied: seq<Entry>, locks: map<int, Lock>, sku: nat)
    requires forall e, item :: e in applied && item in e.items ==> item.sku != sku
    ensures Outstanding(applied, locks, sku) == 0
  {
    if applied != [] {
      var n := |applied| - 1;
      assert applied[n] in applied;
      AbsentTotal(applied[n].items, sku);
      AbsentSku(applied[..n], locks, sku);
    }
  }

  lemma {:induction false} AbsentTotal(items: seq<Item>, sku: nat)
    requires forall item :: item in items ==> item.sku != sku
    ensures Total(items, sku) == 0
  {
    if items != [] {
      assert items[|items| - 1] in items;
      AbsentTotal(items[..|items| - 1], sku);
    }
  }

  lemma StockKeeps(t: Tables, applied: seq<Entry>, e: Event)
    requires LedgerInv(t, applied) && (e.Adjust? || e.Create?)
    ensures var t' := OrKeep(Tx(t, e), t);
            && LedgerInv(t', applied) && t'.locks == t.locks
            && forall s :: s in t.inventories ==>
                 && s in t'.inventories
                 && t'.inventories[s].reserved == t.inventories[s].reserved
                 && (e.Create? ==> t'.inventories[s] == t.inventories[s])
  {
    var t' := OrKeep(Tx(t, e), t);
    if e.Adjust? {
      var image := [Delta(e.sku, e.quantity, 0)];
      assert image[..0] == [];
      assert Assign(t.inventories, image[..0], {StockQuantity}) == Some(t.inventories);
    } else {
      forall s | s in t'.inventories && s !in t.inventories ensures Outstanding(applied, t.locks, s) == 0 {
        AbsentSku(applied, t.locks, s);
      }
    }
  }

  /** Adjusting and creating leave every reserved quantity, and creating leaves
      every existing row. */
  lemma StockInv(l: Ledger, e: Event)
    requires Inv(l) && (e.Adjust? || e.Create?)
    ensures Inv(Next(l, e))
    ensures forall s :: s in l.tables.inventories ==>
              && s in Next(l, e).tables.inventories
              && Next(l, e).tables.inventories[s].reserved == l.tables.inventories[s].reserved
              && (e.Create? ==> Next(l, e).tables.inventories[s] == l.tables.inventories[s])
  {
    StockKeeps(l.tables, l.applied, e);
  }

  lemma StepInv(l: Ledger, e: Event)
    requires Inv(l) && Proper(l, e)
    ensures Inv(Next(l, e))
  {
    match e
    case Reserve(_, _, _) => if Tx(l.tables, e).Some? { ReserveInv(l, e); }
    case Release(orderId, fault) => ProcessInv(l, orderId, fault, false);
    case Deduct(orderId, fault) => ProcessInv(l, orderId, fault, true);
    case Adjust(_, _, _) => StockInv(l, e);
    case Create(_, _) => StockInv(l, e);
  }

  lemma {:induction false} RunInv(l: Ledger, events: seq<Event>)
    requires Inv(l) && ProperRun(l, events)
    ensures Inv(After(l, events))
    decreases |events|
  {
    if events != [] {
      StepInv(l, events[0]);
      RunInv(Next(l, events[0]), events[1..]);
    }
  }

  /** Over every run with positive quantities and existing SKUs: no order is
      reserved twice, each order has one lock with its own payload, every reserved
      quantity is the sum over the locks still locked, and no lock of a non-empty
      order ever leaves that state. */
  lemma ReservedOnce(events: seq<Event>)
    requires ProperRun(EMPTY, events)
    ensures var l := After(EMPTY, events);
            && DistinctOrders(l.applied)
            && l.tables.locks.Keys == Orders(l.applied)
            && (forall e :: e in l.applied ==> l.tables.locks[e.orderId].items == e.items)
            && (forall s :: s in l.tables.inventories ==>
                  l.tables.inventories[s].reserved == Outstanding(l.applied, l.tables.locks, s))
            && (forall e :: e in l.applied && e.items != [] ==> StillLocked(l.tables.locks, e.orderId))
  {
    assert Orders([]) == {};
    RunInv(EMPTY, events);
  }

  /** A product-created batch, redelivered any number of times, resets no row. */
  lemma {:induction false} RedeliveredCreate(t: Tables, skus: seq<nat>, times: nat)
    requires CreateTx(t, skus, false).Some?
    ensures var once := CreateTx(t, skus, false).value;
            After(Ledger(once, []), seq(times, _ => Create(skus, false))).tables == once
    ensures var once := CreateTx(t, skus, false).value;
            && (forall s :: s in t.inventories ==> s in once.inventories && once.inventories[s] == t.inventories[s])
            && (forall s :: s in skus ==> s in once.inventories && once.inventories[s] == Stock(0, 0))
    decreases times
  {
    var once := CreateTx(t, skus, false).value;
    if times > 0 {
      assert skus[0] in skus && skus[0] in once.inventories;
      assert seq(times, _ => Create(skus, false))[1..] == seq(times - 1, _ => Create(skus, false));
      RedeliveredCreate(t, skus, times - 1);
    }
  }

  // ------------------------------- exactly which orders are safe to give back

  /** Orders ask for SKUs that exist, in any quantities. */
  ghost predicate Known(l: Ledger, e: Event) {
    e.Reserve? ==> forall item :: item in e.items ==> item.sku in l.tables.inventories
  }

  ghost predicate KnownRun(l: Ledger, events: seq<Event>)
    decreases |events|
  {
    events == [] || (Known(l, events[0]) && KnownRun(Next(l, events[0]), events[1..]))
  }

  ghost predicate Consistent(l: Ledger) {
    LedgerInv(l.tables, l.applied)
  }

  ghost predicate HoldsOrder(l: Ledger, orderId: int, items: seq<Item>) {
    StillLocked(l.tables.locks, orderId) && l.tables.locks[orderId].items == items
  }

  function Process(orderId: int, deduct: bool): Event {
    if deduct then Deduct(orderId, false) else Release(orderId, false)
  }

  /** Releasing (or deducting) a locked order of `items` leaves a consistent ledger
      in every consistent state that some run of the service reaches. */
  ghost predicate AlwaysKeeps(items: seq<Item>, deduct: bool) {
    forall events, orderId ::
      KnownRun(EMPTY, events) && Consistent(After(EMPTY, events)) && HoldsOrder(After(EMPTY, events), orderId, items)
      ==> Consistent(Next(After(EMPTY, events), Process(orderId, deduct)))
  }

  /** No item of the order reserves anything; each gives some quantity back. */
  ghost predicate GivesBack(items: seq<Item>) {
    forall item :: item in items ==> 0 <= Neg64(item.quantity)
  }

  /** The order gives back more of one SKU than a column can hold. */
  ghost predicate GivesTooMuch(items: seq<Item>) {
    exists s :: -Total(items, s) > MAX_INT64
  }

  /** Rows within their columns, and locks on existing SKUs that some column held. */
  ghost predicate Plausible(t: Tables) {
    && (forall s :: s in t.inventories ==> Allowed(t.inventories[s]))
    && (forall o, item :: o in t.locks && item in t.locks[o].items ==> item.sku in t.inventories)
    && (forall o :: o in t.locks ==> !GivesTooMuch(t.locks[o].items))
  }

  lemma ReservePlausible(t: Tables, orderId: int, items: seq<Item>)
    requires Plausible(t) && ReserveTx(t, orderId, items, false).Some?
    requires forall item :: item in items ==> item.sku in t.inventories
    ensures Plausible(ReserveTx(t, orderId, items, false).value)
  {
    ShiftEffect(t.inventories, items);
    forall s ensures -Total(items, s) <= MAX_INT64 {
      if s !in t.inventories {
        AbsentTotal(items, s);
      }
    }
  }

  lemma StepPlausible(l: Ledger, e: Event)
    requires Plausible(l.tables) && Known(l, e)
    ensures Plausible(Next(l, e).tables)
  {
    var t := l.tables;
    match e
    case Reserve(orderId, items, _) =>
      if Tx(t, e).Some? {
        ReservePlausible(t, orderId, items);
      }
    case Release(orderId, _) =>
      if Tx(t, e).Some? {
        AssignPasses(t.inventories, t.locks[orderId].items, false);
      }
    case Deduct(orderId, _) =>
      if Tx(t, e).Some? {
        AssignPasses(t.inventories, t.locks[orderId].items, true);
      }
    case Adjust(sku, quantity, _) =>
      var image := [Delta(sku, quantity, 0)];
      assert image[..0] == [] && Assign(t.inventories, image[..0], {StockQuantity}) == Some(t.inventories);
    case Create(_, _) =>
  }

  lemma {:induction false} RunPlausible(l: Ledger, events: seq<Event>)
    requires Plausible(l.tables) && KnownRun(l, events)
    ensures Plausible(After(l, events).tables)
    decreases |events|
  {
    if events != [] {
      StepPlausible(l, events[0]);
      RunPlausible(Next(l, events[0]), events[1..]);
    }
  }

  /** An order that gives back more than a column can hold is never locked. */
  lemma NeverLocked(events: seq<Event>, items: seq<Item>)
    requires KnownRun(EMPTY, events) && GivesTooMuch(items)
    ensures forall o :: o in After(EMPTY, events).tables.locks ==> After(EMPTY, events).tables.locks[o].items != items
  {
    RunPlausible(EMPTY, events);
  }

  /** What `items` gives back, reserved beforehand. */
  ghost function Opposite(items: seq<Item>): seq<Item>
    requires GivesBack(items)
  {
    seq(|items|, i requires 0 <= i < |items| => Item(items[i].sku, Neg64(items[i].quantity)))
  }

  lemma {:induction false} OppositeTotal(items: seq<Item>, sku: nat)
    requires GivesBack(items)
    ensures Total(Opposite(items), sku) == -Total(items, sku)
    ensures items != [] && items[|items| - 1].sku == sku ==> Neg64(items[|items| - 1].quantity) <= -Total(items, sku)
    ensures 0 <= -Total(items, sku)
  {
    if items != [] {
      var n := |items| - 1;
      assert Opposite(items)[..n] == Opposite(items[..n]);
      OppositeTotal(items[..n], sku);
    }
  }

  /** Reservations that only give back are refused exactly if a row would get negative. */
  lemma {:induction false} ShiftBackPasses(inv: map<nat, Stock>, items: seq<Item>)
    requires forall s :: s in inv ==> Allowed(inv[s])
    requires GivesBack(items)
    ensures Shift(inv, Reservations(items), {ReservedQuantity}).Some?
            <==> forall s :: s in inv ==> 0 <= inv[s].reserved + Total(items, s)
  {
    if items != [] {
      var n := |items| - 1;
      assert Reservations(items)[..n] == Reservations(items[..n]);
      assert items == items[..n] + [items[n]];
      ShiftBackPasses(inv, items[..n]);
      var before := Shift(inv, Reservations(items[..n]), {ReservedQuantity});
      if before.Some? {
        ShiftEffect(inv, items[..n]);
      } else {
        var s :| s in inv && inv[s].reserved + Total(items[..n], s) < 0;
        assert Total(items, s) <= Total(items[..n], s);
      }
    }
  }

  ghost function Skus(items: seq<Item>): (skus: seq<nat>)
    ensures NoDup(skus)
    ensures forall item :: item in items ==> item.sku in skus
  {
    if items == [] then []
    else
      var n := |items| - 1;
      var before := Skus(items[..n]);
      assert forall item :: item in items ==> item in items[..n] || item == items[n];
      if items[n].sku in before then before else before + [items[n].sku]
  }

  /** Create the SKUs, reserve what `items` gives back, then `items`, then one unit
      of its last SKU. */
  ghost function VictimRun(items: seq<Item>): seq<Event>
    requires items != [] && GivesBack(items)
  {
    [Create(Skus(items), false), Reserve(0, Opposite(items), false), Reserve(1, items, false),
     Reserve(2, [Item(items[|items| - 1].sku, 1)], false)]
  }

  lemma ReserveStep(l: Ledger, orderId: int, items: seq<Item>)
    requires Consistent(l) && orderId !in l.tables.locks
    requires forall item :: item in items ==> item.sku in l.tables.inventories
    requires Shift(l.tables.inventories, Reservations(items), {ReservedQuantity}).Some?
    ensures var m := Next(l, Reserve(orderId, items, false));
            && Consistent(m)
            && m.applied == l.applied + [Entry(orderId, items)]
            && m.tables.locks == l.tables.locks[orderId := Lock(items, Locked)]
            && m.tables.inventories.Keys == l.tables.inventories.Keys
            && forall s :: s in l.tables.inventories ==>
                 m.tables.inventories[s].reserved == l.tables.inventories[s].reserved + Total(items, s)
  {
    ShiftEffect(l.tables.inventories, items);
    ReserveKeeps(l.tables, Next(l, Reserve(orderId, items, false)).tables, l.applied, Entry(orderId, items));
  }

  /** Every reserved quantity of the items is `quantity`. */
  ghost predicate AllAt(l: Ledger, items: seq<Item>, quantity: int) {
    forall item :: item in items ==>
      item.sku in l.tables.inventories && l.tables.inventories[item.sku].reserved == quantity
  }

  lemma VictimCreated(items: seq<Item>)
    requires items != []
    ensures var l := Next(EMPTY, Create(Skus(items), false));
            && Consistent(l) && l.tables.locks == map[] && AllAt(l, items, 0)
            && forall s :: s in l.tables.inventories ==> l.tables.inventories[s].reserved == 0
  {
    assert Orders([]) == {};
    assert items[0] in items && items[0].sku in Skus(items);
    StockKeeps(EMPTY.tables, [], Create(Skus(items), false));
  }

  lemma OppositeSkus(l: Ledger, items: seq<Item>)
    requires GivesBack(items) && AllAt(l, items, 0)
    ensures forall item :: item in Opposite(items) ==> item.sku in l.tables.inventories && 0 <= item.quantity
  {
    forall item | item in Opposite(items) ensures item.sku in l.tables.inventories && 0 <= item.quantity {
      var i :| 0 <= i < |items| && Opposite(items)[i] == item;
      assert items[i] in items;
    }
  }

  /** Reserving what the order gives back. */
  lemma VictimFilled(l: Ledger, items: seq<Item>)
    requires Consistent(l) && l.tables.locks == map[] && AllAt(l, items, 0)
    requires forall s :: s in l.tables.inventories ==> l.tables.inventories[s].reserved == 0
    requires GivesBack(items) && !GivesTooMuch(items)
    ensures Known(l, Reserve(0, Opposite(items), false))
    ensures var m := Next(l, Reserve(0, Opposite(items), false));
            && Consistent(m) && m.tables.locks.Keys == {0} && m.tables.inventories.Keys == l.tables.inventories.Keys
            && forall s :: s in m.tables.inventories ==> m.tables.inventories[s].reserved == -Total(items, s)
  {
    forall s ensures Total(Opposite(items), s) == -Total(items, s) <= MAX_INT64 {
      OppositeTotal(items, s);
    }
    OppositeSkus(l, items);
    ShiftPasses(l.tables.inventories, Opposite(items));
    ReserveStep(l, 0, Opposite(items));
  }

  /** The order itself brings all rows back to zero. */
  lemma VictimBalanced(l: Ledger, items: seq<Item>)
    requires Consistent(l) && l.tables.locks.Keys == {0} && GivesBack(items)
    requires forall item :: item in items ==> item.sku in l.tables.inventories
    requires forall s :: s in l.tables.inventories ==> l.tables.inventories[s].reserved == -Total(items, s)
    ensures Known(l, Reserve(1, items, false))
    ensures var m := Next(l, Reserve(1, items, false));
            Consistent(m) && HoldsOrder(m, 1, items) && m.tables.locks.Keys == {0, 1} && AllAt(m, items, 0)
  {
    ShiftBackPasses(l.tables.inventories, items);
    ReserveStep(l, 1, items);
  }

  /** One unit more of one of its SKUs. */
  lemma VictimOneMore(l: Ledger, items: seq<Item>, item: Item)
    requires Consistent(l) && HoldsOrder(l, 1, items) && l.tables.locks.Keys == {0, 1}
    requires AllAt(l, items, 0) && item in items
    ensures Known(l, Reserve(2, [Item(item.sku, 1)], false))
    ensures var m := Next(l, Reserve(2, [Item(item.sku, 1)], false));
            && Consistent(m) && HoldsOrder(m, 1, items)
            && item.sku in m.tables.inventories && m.tables.inventories[item.sku].reserved == 1
  {
    var unit := [Item(item.sku, 1)];
    assert Reservations(unit)[..0] == [] && unit[..0] == [];
    assert Shift(l.tables.inventories, Reservations(unit)[..0], {ReservedQuantity}) == Some(l.tables.inventories);
    assert Total(unit[..0], item.sku) == 0 && Total(unit, item.sku) == 1;
    ReserveStep(l, 2, unit);
  }

  lemma FirstStep(l: Ledger, e: Event, rest: seq<Event>)
    ensures After(l, [e] + rest) == After(Next(l, e), rest)
    ensures KnownRun(l, [e] + rest) <==> Known(l, e) && KnownRun(Next(l, e), rest)
  {
    assert ([e] + rest)[1..] == rest;
  }

  lemma FourSteps(l: Ledger, a: Event, b: Event, c: Event, d: Event)
    ensures After(l, [a, b, c, d]) == Next(Next(Next(Next(l, a), b), c), d)
    ensures KnownRun(l, [a, b, c, d]) <==>
              Known(l, a) && Known(Next(l, a), b) && Known(Next(Next(l, a), b), c) && Known(Next(Next(Next(l, a), b), c), d)
  {
    var l1 := Next(l, a);
    var l2 := Next(l1, b);
    FirstStep(l, a, [b, c, d]);
    FirstStep(l1, b, [c, d]);
    FirstStep(l2, c, [d]);
    FirstStep(Next(l2, c), d, []);
    assert [a] + [b, c, d] == [a, b, c, d] && [b] + [c, d] == [b, c, d] && [c] + [d] == [c, d] && [d] + [] == [d];
  }

  /** The run reaches a consistent ledger that holds the order and one unit more. */
  lemma VictimConsistent(items: seq<Item>)
    requires items != [] && GivesBack(items) && !GivesTooMuch(items)
    ensures KnownRun(EMPTY, VictimRun(items))
    ensures var l, sku := After(EMPTY, VictimRun(items)), items[|items| - 1].sku;
            && Consistent(l) && HoldsOrder(l, 1, items)
            && sku in l.tables.inventories && l.tables.inventories[sku].reserved == 1
  {
    var run := VictimRun(items);
    var l1 := Next(EMPTY, run[0]);
    VictimCreated(items);
    VictimFilled(l1, items);
    VictimBalanced(Next(l1, run[1]), items);
    VictimOneMore(Next(Next(l1, run[1]), run[2]), items, items[|items| - 1]);
    FourSteps(EMPTY, run[0], run[1], run[2], run[3]);
    assert run == [run[0], run[1], run[2], run[3]];
  }

  /** Taking one order out of the locked ones takes its payload out of the sums. */
  lemma {:induction false} UnlockedOne(applied: seq<Entry>, locks: map<int, Lock>, locks': map<int, Lock>, e: Entry, sku: nat)
    requires DistinctOrders(applied) && e in applied
    requires StillLocked(locks, e.orderId) && !StillLocked(locks', e.orderId)
    requires forall d :: d in applied && d != e ==> (StillLocked(locks, d.orderId) <==> StillLocked(locks', d.orderId))
    ensures Outstanding(applied, locks', sku) == Outstanding(applied, locks, sku) - Total(e.items, sku)
  {
    var n := |applied| - 1;
    LastEntry(applied);
    if applied[n] == e {
      SameOutstanding(applied[..n], locks, locks', sku);
    } else {
      UnlockedOne(applied[..n], locks, locks', e, sku);
    }
  }

  lemma LastEntry(applied: seq<Entry>)
    requires DistinctOrders(applied) && applied != []
    ensures var n := |applied| - 1;
            && DistinctOrders(applied[..n])
            && (forall d :: d in applied <==> d in applied[..n] || d == applied[n])
            && applied[n] !in applied[..n]
  {
    var n := |applied| - 1;
    assert applied == applied[..n] + [applied[n]];
  }

  /** Giving the order back there breaks the ledger: it sets the last SKU to the last
      quantity, where one unit more is still held. */
  lemma VictimBroken(items: seq<Item>, deduct: bool)
    requires items != [] && GivesBack(items) && !GivesTooMuch(items)
    ensures !Consistent(Next(After(EMPTY, VictimRun(items)), Process(1, deduct)))
  {
    VictimConsistent(items);
    var l := After(EMPTY, VictimRun(items));
    var m, last := Next(l, Process(1, deduct)), items[|items| - 1];
    AssignPasses(l.tables.inventories, items, deduct);
    assert m.tables.inventories[last.sku].reserved == Neg64(last.quantity);
    assert 1 in Orders(l.applied);
    var e :| e in l.applied && e.orderId == 1;
    OthersStay(l.applied, l.tables.locks, m.tables.locks, e);
    UnlockedOne(l.applied, l.tables.locks, m.tables.locks, e, last.sku);
    OppositeTotal(items, last.sku);
  }

  lemma OthersStay(applied: seq<Entry>, locks: map<int, Lock>, locks': map<int, Lock>, e: Entry)
    requires DistinctOrders(applied) && e in applied && e.orderId in locks'
    requires locks' == locks[e.orderId := locks'[e.orderId]]
    ensures forall d :: d in applied && d != e ==> (StillLocked(locks, d.orderId) <==> StillLocked(locks', d.orderId))
  {
    forall d | d in applied && d != e ensures d.orderId != e.orderId {
      var i :| 0 <= i < |applied| && applied[i] == d;
      var j :| 0 <= j < |applied| && applied[j] == e;
      assert i < j || j < i;
    }
  }

  /** The exact condition, which a caller can read off the order: releasing (or
      deducting) keeps every consistent ledger that the service can reach if and
      only if the order is empty, or has an item that the CHECK refuses (as every
      positive quantity is), or gives back so much that it is never locked. */
  lemma ReleaseSafeIff(items: seq<Item>, deduct: bool)
    ensures AlwaysKeeps(items, deduct) <==> SafePayload(items) || GivesTooMuch(items)
  {
    if SafePayload(items) || GivesTooMuch(items) {
      forall events, orderId |
        KnownRun(EMPTY, events) && Consistent(After(EMPTY, events)) && HoldsOrder(After(EMPTY, events), orderId, items)
        ensures Consistent(Next(After(EMPTY, events), Process(orderId, deduct)))
      {
        if GivesTooMuch(items) {
          NeverLocked(events, items);
        } else {
          SafeKeeps(After(EMPTY, events).tables, After(EMPTY, events).applied, orderId, deduct);
        }
      }
    } else {
      VictimConsistent(items);
      VictimBroken(items, deduct);
    }
  }
}
