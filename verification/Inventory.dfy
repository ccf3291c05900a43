/** The inventory tables, their constraints, and the transactions run on them. */
module Inventory {
  import opened Basics

  const MAX_INT64: int := 0x7FFF_FFFF_FFFF_FFFF
  const MIN_INT64: int := -0x8000_0000_0000_0000
  type Int64 = x: int | MIN_INT64 <= x <= MAX_INT64

  /** Two's complement negation of a 64-bit integer. */
  function Neg64(x: Int64): Int64 {
    if x == MIN_INT64 then x else -x
  }

  datatype Item = Item(sku: nat, quantity: Int64)

  datatype Stock = Stock(stock: int, reserved: int)

  datatype LockStatus = Locked | Confirmed | Released

  datatype Lock = Lock(items: seq<Item>, status: LockStatus)

  datatype Tables = Tables(inventories: map<nat, Stock>, locks: map<int, Lock>)

  /** A path of an update; only the first two name columns of the table. */
  datatype Column = StockQuantity | ReservedQuantity | OtherColumn(path: string)

  predicate AllKnown(paths: set<Column>) {
    forall c :: c in paths ==> !c.OtherColumn?
  }

  /** A row image for `UpdateInventories` or a delta for `UpdateDeltaQuantity`. */
  datatype Delta = Delta(sku: nat, stock: Int64, reserved: Int64)

  /** BIGINT columns with CHECK (... >= 0). */
  predicate Allowed(s: Stock) {
    0 <= s.stock <= MAX_INT64 && 0 <= s.reserved <= MAX_INT64
  }

  function Shifted(s: Stock, d: Delta, paths: set<Column>): Stock {
    Stock(if StockQuantity in paths then s.stock + d.stock else s.stock,
          if ReservedQuantity in paths then s.reserved + d.reserved else s.reserved)
  }

  function Assigned(s: Stock, d: Delta, paths: set<Column>): Stock {
    Stock(if StockQuantity in paths then d.stock else s.stock,
          if ReservedQuantity in paths then d.reserved else s.reserved)
  }

  /** One UPDATE by key: no row, no effect; a refused row image fails the statement. */
  function UpdateRow(inv: map<nat, Stock>, sku: nat, image: Stock): Option<map<nat, Stock>> {
    if sku !in inv then Some(inv)
    else if Allowed(image) then Some(inv[sku := image])
    else None
  }

  function ShiftRow(inv: map<nat, Stock>, d: Delta, paths: set<Column>): Option<map<nat, Stock>> {
    if !AllKnown(paths) then None
    else UpdateRow(inv, d.sku, if d.sku in inv then Shifted(inv[d.sku], d, paths) else Stock(0, 0))
  }

  function AssignRow(inv: map<nat, Stock>, d: Delta, paths: set<Column>): Option<map<nat, Stock>> {
    UpdateRow(inv, d.sku, if d.sku in inv then Assigned(inv[d.sku], d, paths) else Stock(0, 0))
  }

  /** The statements of `UpdateDeltaQuantity` in order; None if one is refused. */
  function Shift(inv: map<nat, Stock>, ds: seq<Delta>, paths: set<Column>): Option<map<nat, Stock>> {
    if ds == [] then Some(inv)
    else
      var before := Shift(inv, ds[..|ds| - 1], paths);
      if before.None? then None else ShiftRow(before.value, ds[|ds| - 1], paths)
  }

  /** The statements of `UpdateInventories` in order; None if one is refused. */
  function Assign(inv: map<nat, Stock>, ds: seq<Delta>, paths: set<Column>): Option<map<nat, Stock>> {
    if ds == [] then Some(inv)
    else
      var before := Assign(inv, ds[..|ds| - 1], paths);
      if before.None? then None else AssignRow(before.value, ds[|ds| - 1], paths)
  }

  lemma {:induction false} RefusedPrefix(inv: map<nat, Stock>, ds: seq<Delta>, paths: set<Column>, k: nat)
    requires k <= |ds|
    ensures Shift(inv, ds[..k], paths).None? ==> Shift(inv, ds, paths).None?
    ensures Assign(inv, ds[..k], paths).None? ==> Assign(inv, ds, paths).None?
    decreases |ds| - k
  {
    if k == |ds| {
      assert ds[..k] == ds;
    } else {
      assert ds[..k + 1][..|ds[..k + 1]| - 1] == ds[..k];
      RefusedPrefix(inv, ds, paths, k + 1);
    }
  }

  // ------------------------------------------------- what the usecases build

  function Reservations(items: seq<Item>): (ds: seq<Delta>)
    ensures |ds| == |items|
  {
    seq(|items|, i requires 0 <= i < |items| => Delta(items[i].sku, 0, items[i].quantity))
  }

  function Releases(items: seq<Item>): (ds: seq<Delta>)
    ensures |ds| == |items|
  {
    seq(|items|, i requires 0 <= i < |items| => Delta(items[i].sku, 0, Neg64(items[i].quantity)))
  }

  function Deductions(items: seq<Item>): (ds: seq<Delta>)
    ensures |ds| == |items|
  {
    seq(|items|, i requires 0 <= i < |items| =>
      Delta(items[i].sku, Neg64(items[i].quantity), Neg64(items[i].quantity)))
  }

  // ------------------------------------------------------------ transactions

  /** Each transaction on the tables: the committed tables, or None when it rolls
      back. `fault` is a statement or a commit that the database refuses. */
  function ReserveTx(t: Tables, orderId: int, items: seq<Item>, fault: bool): Option<Tables> {
    var inv := Shift(t.inventories, Reservations(items), {ReservedQuantity});
    if fault || inv.None? || orderId in t.locks then None
    else Some(Tables(inv.value, t.locks[orderId := Lock(items, Locked)]))
  }

  function ReleaseTx(t: Tables, orderId: int, fault: bool): Option<Tables> {
    if orderId !in t.locks then None
    else
      var lock := t.locks[orderId];
      var inv := Assign(t.inventories, Releases(lock.items), {ReservedQuantity});
      if fault || inv.None? then None
      else Some(Tables(inv.value, t.locks[orderId := lock.(status := Released)]))
  }

  function DeductTx(t: Tables, orderId: int, fault: bool): Option<Tables> {
    if orderId !in t.locks || t.locks[orderId].status != Locked then None
    else
      var lock := t.locks[orderId];
      var inv := Assign(t.inventories, Deductions(lock.items), {StockQuantity, ReservedQuantity});
      if fault || inv.None? then None
      else Some(Tables(inv.value, t.locks[orderId := lock.(status := Confirmed)]))
  }

  function AdjustTx(t: Tables, sku: nat, quantity: Int64, fault: bool): Option<Tables> {
    var inv := Assign(t.inventories, [Delta(sku, quantity, 0)], {StockQuantity});
    if fault || inv.None? then None else Some(t.(inventories := inv.value))
  }

  /** The keys are new and do not repeat. */
  predicate Fresh(inv: map<nat, Stock>, skus: seq<nat>) {
    NoDup(skus) && forall s :: s in skus ==> s !in inv
  }

  function WithRows(inv: map<nat, Stock>, skus: seq<nat>): map<nat, Stock> {
    inv + map s | s in skus :: Stock(0, 0)
  }

  /** One more key in the batch. */
  lemma FreshSnoc(inv: map<nat, Stock>, skus: seq<nat>, sku: nat)
    ensures Fresh(inv, skus + [sku]) <==> Fresh(inv, skus) && sku !in skus && sku !in inv
  {
    NoDupIff(skus, sku);
    assert forall s :: s in skus + [sku] <==> s in skus || s == sku;
  }

  lemma RowsSnoc(inv: map<nat, Stock>, skus: seq<nat>, sku: nat)
    ensures WithRows(inv, skus + [sku]) == WithRows(inv, skus)[sku := Stock(0, 0)]
    ensures sku in WithRows(inv, skus) <==> sku in skus || sku in inv
  {
    assert forall s :: s in skus + [sku] <==> s in skus || s == sku;
  }

  /** One INSERT of all rows: an existing or repeated key refuses the whole batch,
      and an empty batch is an error. */
  function CreateTx(t: Tables, skus: seq<nat>, fault: bool): Option<Tables> {
    if fault || skus == [] || !Fresh(t.inventories, skus) then None
    else Some(t.(inventories := WithRows(t.inventories, skus)))
  }

  function OrKeep(result: Option<Tables>, t: Tables): Tables {
    if result.Some? then result.value else t
  }

  // ------------------------------------------------------ the tables in place

  class InventoryDb {
    var inventories: map<nat, Stock>
    var locks: map<int, Lock>

    constructor ()
      ensures Contents() == Tables(map[], map[])
    {
      inventories, locks := map[], map[];
    }

    function Contents(): Tables
      reads this
    {
      Tables(inventories, locks)
    }

    /** Statement `faultAt` is refused; a larger number refuses none of them. */
    method UpdateDeltaQuantity(ds: seq<Delta>, paths: set<Column>, faultAt: nat) returns (err: bool)
      modifies this`inventories
      ensures err == (faultAt < |ds| || Shift(old(inventories), ds, paths).None?)
      ensures !err ==> inventories == Shift(old(inventories), ds, paths).value
    {
      for k := 0 to |ds|
        invariant k <= faultAt
        invariant Shift(old(inventories), ds[..k], paths) == Some(inventories)
      {
        assert ds[..k + 1][..k] == ds[..k];
        RefusedPrefix(old(inventories), ds, paths, k + 1);
        var d := ds[k];
        if !AllKnown(paths) || k == faultAt {
          return true;
        }
        if d.sku in inventories {
          var image := Shifted(inventories[d.sku], d, paths);
          if !Allowed(image) {
            return true;
          }
          inventories := inventories[d.sku := image];
        }
      }
      assert ds[..|ds|] == ds;
      return false;
    }

    method UpdateInventories(images: seq<Delta>, paths: set<Column>, faultAt: nat) returns (err: bool)
      modifies this`inventories
      ensures err == (faultAt < |images| || Assign(old(inventories), images, paths).None?)
      ensures !err ==> inventories == Assign(old(inventories), images, paths).value
    {
      for k := 0 to |images|
        invariant k <= faultAt
        invariant Assign(old(inventories), images[..k], paths) == Some(inventories)
      {
        assert images[..k + 1][..k] == images[..k];
        RefusedPrefix(old(inventories), images, paths, k + 1);
        var d := images[k];
        if k == faultAt {
          return true;
        }
        if d.sku in inventories {
          var image := Assigned(inventories[d.sku], d, paths);
          if !Allowed(image) {
            return true;
          }
          inventories := inventories[d.sku := image];
        }
      }
      assert images[..|images|] == images;
      return false;
    }

    method CreateInventoryLock(orderId: int, items: seq<Item>, status: LockStatus) returns (err: bool)
      modifies this`locks
      ensures err == (orderId in old(locks))
      ensures locks == if err then old(locks) else old(locks)[orderId := Lock(items, status)]
    {
      if orderId in locks {
        return true;
      }
      locks := locks[orderId := Lock(items, status)];
      return false;
    }

    method UpdateInventoryLock(orderId: int, status: LockStatus)
      modifies this`locks
      ensures locks == if orderId in old(locks) then old(locks)[orderId := old(locks)[orderId].(status := status)] else old(locks)
    {
      if orderId in locks {
        locks := locks[orderId := locks[orderId].(status := status)];
      }
    }

    /** Reserve: one statement per item, the lock insert, the commit. */
    method ReserveStock(orderId: int, items: seq<Item>, faultAt: nat) returns (committed: bool)
      modifies this
      ensures var result := ReserveTx(old(Contents()), orderId, items, faultAt < |items| + 2);
              committed == result.Some? && Contents() == OrKeep(result, old(Contents()))
    {
      var savedInventories, savedLocks := inventories, locks;
      var deltas: seq<Delta> := [];
      for k := 0 to |items|
        invariant deltas == Reservations(items)[..k]
      {
        deltas := deltas + [Delta(items[k].sku, 0, items[k].quantity)];
      }
      assert deltas == Reservations(items);
      var err := UpdateDeltaQuantity(deltas, {ReservedQuantity}, faultAt);
      if !err {
        err := CreateInventoryLock(orderId, items, Locked);
      }
      committed := !err && |items| + 2 <= faultAt;
      if !committed {
        inventories, locks := savedInventories, savedLocks;
      }
    }

    /** Release: the read (statement 0), one statement per item, the lock update, the commit. */
    method ReleaseStock(orderId: int, faultAt: nat) returns (committed: bool)
      modifies this
      ensures var old_ := old(Contents());
              var result := ReleaseTx(old_, orderId, orderId in old_.locks && faultAt < |old_.locks[orderId].items| + 3);
              committed == result.Some? && Contents() == OrKeep(result, old_)
    {
      if faultAt == 0 || orderId !in locks {
        return false;
      }
      var savedInventories, savedLocks := inventories, locks;
      var items := locks[orderId].items;
      var images: seq<Delta> := [];
      for k := 0 to |items|
        invariant images == Releases(items)[..k]
      {
        images := images + [Delta(items[k].sku, 0, Neg64(items[k].quantity))];
      }
      assert images == Releases(items);
      var err := UpdateInventories(images, {ReservedQuantity}, faultAt - 1);
      if !err {
        UpdateInventoryLock(orderId, Released);
      }
      committed := !err && |items| + 3 <= faultAt;
      if !committed {
        inventories, locks := savedInventories, savedLocks;
      }
    }

    /** Deduct: as release, but only for a lock that is still locked. */
    method DeductStock(orderId: int, faultAt: nat) returns (committed: bool)
      modifies this
      ensures var old_ := old(Contents());
              var result := DeductTx(old_, orderId, orderId in old_.locks && faultAt < |old_.locks[orderId].items| + 3);
              committed == result.Some? && Contents() == OrKeep(result, old_)
    {
      if faultAt == 0 || orderId !in locks {
        return false;
      }
      if locks[orderId].status != Locked {
        return false;
      }
      var savedInventories, savedLocks := inventories, locks;
      var items := locks[orderId].items;
      var images: seq<Delta> := [];
      for k := 0 to |items|
        invariant images == Deductions(items)[..k]
      {
        images := images + [Delta(items[k].sku, Neg64(items[k].quantity), Neg64(items[k].quantity))];
      }
      assert images == Deductions(items);
      var err := UpdateInventories(images, {StockQuantity, ReservedQuantity}, faultAt - 1);
      if !err {
        UpdateInventoryLock(orderId, Confirmed);
      }
      committed := !err && |items| + 3 <= faultAt;
      if !committed {
        inventories, locks := savedInventories, savedLocks;
      }
    }

    method AdjustStock(sku: nat, quantity: Int64, faultAt: nat) returns (committed: bool)
      modifies this
      ensures var result := AdjustTx(old(Contents()), sku, quantity, faultAt < 2);
              committed == result.Some? && Contents() == OrKeep(result, old(Contents()))
    {
      var saved := inventories;
      var err := UpdateInventories([Delta(sku, quantity, 0)], {StockQuantity}, faultAt);
      committed := !err && 2 <= faultAt;
      if !committed {
        inventories := saved;
      }
    }

    method BatchCreateInventories(skus: seq<nat>, faultAt: nat) returns (committed: bool)
      modifies this
      ensures var result := CreateTx(old(Contents()), skus, faultAt < 2);
              committed == result.Some? && Contents() == OrKeep(result, old(Contents()))
    {
      var saved := inventories;
      var err := |skus| == 0 || faultAt < 2;
      for k := 0 to |skus|
        invariant locks == old(locks)
        invariant err <==> skus == [] || faultAt < 2 || !Fresh(saved, skus[..k])
        invariant !err ==> inventories == WithRows(saved, skus[..k])
      {
        FreshSnoc(saved, skus[..k], skus[k]);
        RowsSnoc(saved, skus[..k], skus[k]);
        assert skus[..k + 1] == skus[..k] + [skus[k]];
        if !err {
          if skus[k] in inventories {
            err := true;
          } else {
            inventories := inventories[skus[k] := Stock(0, 0)];
          }
        }
      }
      assert skus[..|skus|] == skus;
      committed := !err;
      if !committed {
        inventories := saved;
      }
    }
  }
}
