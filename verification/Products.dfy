/** The product repository with its cache, and the use case that creates, updates
    and lists products. */
module Products {
  import opened Basics
  import opened CacheKeys
  import opened Listing
  import opened BatchUpdate
  import opened ProductCache

  /** The keys of a string set, in no particular order. */
  method ToSlice(ss: set<string>) returns (keys: seq<string>)
    ensures NoDup(keys)
    ensures forall k :: k in keys <==> k in ss
  {
    keys := [];
    var left := ss;
    while left != {}
      invariant NoDup(keys) && left <= ss
      invariant forall k :: k in keys <==> k in ss - left
      decreases left
    {
      var k :| k in left;
      NoDupSnoc(keys, k);
      keys := keys + [k];
      left := left - {k};
    }
  }

  method ConvertToUniquePaths(mask: seq<string>) returns (paths: seq<string>)
    ensures NoDup(paths)
    ensures forall p :: p in paths <==> p in mask
  {
    paths := ToSlice(set p | p in mask);
  }

  ghost function KeysOf(sellers: seq<int>): set<string> {
    set s | s in sellers :: SetKey(s)
  }

  lemma KeysOfAll(sellers: seq<int>, setKeys: seq<string>)
    requires forall k :: k in setKeys <==> k in KeysOf(sellers)
    ensures AreSetKeys(setKeys, sellers)
  {
    forall k | k in setKeys ensures IsSetKey(k) && exists s :: s in sellers && k == SetKey(s) {
      assert k in KeysOf(sellers);
    }
  }

  class ProductRepo {
    var db: Tables
    var redis: Redis

    constructor (db: Tables)
      ensures this.db == db && redis == map[]
    {
      this.db, redis := db, map[];
    }

    ghost function Now(): Shop
      reads this
    {
      Shop(db, redis)
    }

    method ListProductsBySellerID(sellerId: int, pageToken: Uuid, pageSize: int, status: string, dbError: bool)
      returns (err: bool, products: seq<Product>)
      modifies this`redis
      ensures err <==> dbError && !Hit(old(redis), ListKey(sellerId, pageToken, pageSize, status))
      ensures Next(old(Now()), if err then Refused else List(sellerId, pageToken, pageSize, status, products), Now())
      ensures Coherent(db, old(redis)) && !err ==> IsListing(db, sellerId, pageToken, pageSize, status, products)
      ensures !err ==>
                var key, setKey := ListKey(sellerId, pageToken, pageSize, status), SetKey(sellerId);
                && Hit(redis, key) && redis[key].products == products
                && (Registered(old(redis)) ==> setKey in redis && redis[setKey].KeySet? && key in redis[setKey].members)
                && (forall k :: k != key && k != setKey ==>
                      (k in redis <==> k in old(redis)) && (k in redis ==> redis[k] == old(redis)[k]))
    {
      ListKeyIsNoSetKey(sellerId, pageToken, pageSize, status, sellerId);
      var resultKey := ListKey(sellerId, pageToken, pageSize, status);
      if resultKey in redis && redis[resultKey].Listed? {
        assert Coherent(db, redis) ==> Fresh(db, redis, sellerId);
        return false, redis[resultKey].products;
      }
      if dbError {
        return true, [];
      }
      ghost var possible := AnswerExists(JoinedRows(db, sellerId), pageToken, pageSize, status);
      var rows :| IsAnswer(JoinedRows(db, sellerId), pageToken, pageSize, status, rows);
      products := ConvertToBizProducts(sellerId, rows);
      err := false;
      redis := redis[resultKey := Listed(products)];
      redis := SetAdded(redis, SetKey(sellerId), resultKey);
    }

    method DelProductCaches(setKeys: seq<string>)
      modifies this`redis
      ensures redis == Cleared(old(redis), setKeys)
    {
      for i := 0 to |setKeys|
        invariant redis == Cleared(old(redis), setKeys[..i])
      {
        ghost var before := redis;
        if HasMembers(redis, setKeys[i]) {
          var members := redis[setKeys[i]].members;
          redis := redis - members;
          redis := redis - {setKeys[i]};
        }
        assert redis == ClearOne(before, setKeys[i]);
        assert setKeys[..i + 1][..i] == setKeys[..i];
      }
      assert setKeys[..|setKeys|] == setKeys;
    }

    method ClearSellerProductCaches(sellerIds: seq<int>)
      modifies this`redis
      ensures ClearedFor(old(redis), redis, sellerIds)
    {
      var ss: set<string> := {};
      for i := 0 to |sellerIds|
        invariant ss == KeysOf(sellerIds[..i])
      {
        assert sellerIds[..i + 1] == sellerIds[..i] + [sellerIds[i]];
        ss := ss + {SetKey(sellerIds[i])};
      }
      assert sellerIds[..|sellerIds|] == sellerIds;
      var setKeys := ToSlice(ss);
      KeysOfAll(sellerIds, setKeys);
      DelProductCaches(setKeys);
    }

    /** The insert statements; the ids drawn for products and SKUs are those of the
        argument. A statement that fails leaves nothing to commit. */
    method BatchCreateProducts(products: seq<Product>, insertError: bool) returns (err: bool)
      modifies this`db
      ensures err <==> insertError || !Insertable(old(db), products)
      ensures db == if err then old(db) else Inserted(old(db), products)
    {
      if insertError || !Insertable(db, products) {
        return true;
      }
      for i := 0 to |products|
        invariant db == Inserted(old(db), products[..i])
      {
        var p := products[i];
        assert products[..i + 1][..i] == products[..i];
        var skus := db.skus;
        for j := 0 to |p.skus|
          invariant skus == InsertSkus(db.skus, p.id, p.skus[..j])
        {
          assert p.skus[..j + 1][..j] == p.skus[..j];
          skus := skus[p.skus[j].id := SkuRow(p.id, p.skus[j].attrs, p.skus[j].unitPrice)];
        }
        assert p.skus[..|p.skus|] == p.skus;
        db := Tables(db.products[p.id := ProductRow(p.name, p.sellerId, p.status)], skus);
      }
      assert products[..|products|] == products;
      return false;
    }

    method BatchUpdateProducts(products: seq<Product>, paths: seq<string>, updateError: bool, commitError: bool)
      returns (err: bool)
      requires NoDup(paths)
      modifies this
      ensures products == [] || paths == [] ==> !err && Now() == old(Now())
      ensures products != [] && paths != [] ==>
                && (err <==> LacksSkus(products, paths) || updateError || commitError)
                && Next(old(Now()), if err then Refused else Update(products, paths), Now())
      ensures !err && paths != [] && NoDup(ProductIds(products)) && NoDup(SkuIds(Flatten(products))) ==>
                db == RowWise(old(db), products, paths)
    {
      if |products| == 0 || |paths| == 0 {
        return false;
      }
      var c;
      err, c := BuildColumns(products, paths);
      if err {
        return;
      }
      var saved := db;
      err := updateError;
      if !err {
        RowWiseApplied(db, products, paths);
        ColumnsMean(db, RowWise(db, products, paths), c, products, paths);
        var after :| ColumnsApplied(db, after, c);
        ColumnsMean(db, after, c, products, paths);
        if NoDup(ProductIds(products)) && NoDup(SkuIds(Flatten(products))) {
          AppliedIsRowWise(db, after, products, paths);
        }
        db := after;
        err := commitError;
      }
      if err {
        db := saved;
        return;
      }
      var sellerIds := Sellers(products);
      ClearSellerProductCaches(sellerIds);
    }
  }

  // ---------------------------------------------------------------- use case

  datatype Role = Administrator | Merchant | OtherRole

  const OFFLINE: string := "offline"

  /** A merchant owns what it writes, and writes it offline. */
  ghost predicate FilteredFor(products: seq<Product>, userId: int, role: Role, filtered: seq<Product>) {
    && |filtered| == |products|
    && forall i :: 0 <= i < |products| ==>
         filtered[i] == if role.Merchant? then products[i].(sellerId := userId, status := OFFLINE) else products[i]
  }

  method ProductsFilter(products: seq<Product>, userId: int, role: Role) returns (err: bool, filtered: seq<Product>)
    ensures err <==> role.OtherRole?
    ensures !err ==> FilteredFor(products, userId, role, filtered)
    ensures !err ==>
              && |filtered| == |products|
              && forall i :: 0 <= i < |products| ==>
                   && filtered[i].id == products[i].id && filtered[i].name == products[i].name && filtered[i].skus == products[i].skus
                   && filtered[i].sellerId == (if role.Merchant? then userId else products[i].sellerId)
                   && filtered[i].status == (if role.Merchant? then "offline" else products[i].status)
  {
    filtered := products;
    match role
    case Administrator =>
      return false, filtered;
    case Merchant =>
      for i := 0 to |products|
        invariant |filtered| == |products|
        invariant forall j :: 0 <= j < i ==> filtered[j] == products[j].(sellerId := userId, status := OFFLINE)
        invariant forall j :: i <= j < |products| ==> filtered[j] == products[j]
      {
        filtered := filtered[i := filtered[i].(sellerId := userId, status := OFFLINE)];
      }
      return false, filtered;
    case OtherRole =>
      return true, filtered;
  }

  /** The distinct values of `all`, in the order they are first seen. */
  ghost predicate IsDistinct(all: seq<int>, distinct: seq<int>) {
    && NoDup(distinct)
    && (forall x :: x in all <==> x in distinct)
  }

  method DistinctSellers(products: seq<Product>) returns (sellerIds: seq<int>)
    ensures IsDistinct(Sellers(products), sellerIds)
  {
    var seen: set<int> := {};
    sellerIds := [];
    for i := 0 to |products|
      invariant NoDup(sellerIds)
      invariant forall x :: x in seen <==> x in sellerIds
      invariant forall x :: x in Sellers(products)[..i] <==> x in sellerIds
    {
      var s := products[i].sellerId;
      assert Sellers(products)[..i + 1] == Sellers(products)[..i] + [s];
      if s !in seen {
        NoDupSnoc(sellerIds, s);
        seen := seen + {s};
        sellerIds := sellerIds + [s];
      }
    }
    assert Sellers(products)[..|products|] == Sellers(products);
  }

  lemma DistinctClears(before: Redis, after: Redis, all: seq<int>, distinct: seq<int>)
    requires IsDistinct(all, distinct) && ClearedFor(before, after, distinct)
    ensures ClearedFor(before, after, all)
  {
    var setKeys :| AreSetKeys(setKeys, distinct) && after == Cleared(before, setKeys);
    assert AreSetKeys(setKeys, all);
  }

  /** Every SKU of the table is named by a saved product-created event, and every
      event names SKUs of the table. */
  ghost predicate Announced(db: Tables, events: seq<seq<nat>>) {
    forall sku :: sku in db.skus <==> exists e :: e in events && sku in e
  }

  class ProductUsecase {
    const repo: ProductRepo
    /** The product outbox: one list of SKU ids for each product-created row. */
    var events: seq<seq<nat>>

    constructor (repo: ProductRepo)
      ensures this.repo == repo && events == []
    {
      this.repo := repo;
      events := [];
    }

    /** Products, SKUs and their event are saved together; only then are the
        sellers' listings dropped. */
    method BatchCreateProducts(products: seq<Product>, userId: int, role: Role,
                               embedError: bool, insertError: bool, saveError: bool, commitError: bool)
      returns (err: bool, created: seq<Product>)
      modifies this, repo
      ensures err ==> repo.Now() == old(repo.Now()) && events == old(events)
      ensures !err ==> FilteredFor(products, userId, role, created)
      ensures !err ==> Next(old(repo.Now()), Create(created), repo.Now())
      ensures !err ==> events == old(events) + [SkuIds(Flatten(created))]
      ensures !err ==> forall p, s :: p in created && s in p.skus ==> s.id in events[|old(events)|] && s.id in repo.db.skus
      ensures err <==> role.OtherRole? || embedError || insertError || saveError || commitError || !Insertable(old(repo.db), created)
      ensures old(Announced(repo.db, events)) ==> Announced(repo.db, events)
    {
      err, created := ProductsFilter(products, userId, role);
      if err || embedError {
        return true, created;
      }
      var saved := repo.db;
      err := repo.BatchCreateProducts(created, insertError);
      if !err {
        var skuIds := CreatedSkuIds(created);
        err := saveError || commitError;
        if !err {
          NewSkusAnnounced(saved, created, events);
          NewSkusNamed(saved, created);
          events := events + [skuIds];
        }
      }
      if err {
        repo.db := saved;
        return;
      }
      var sellerIds := DistinctSellers(created);
      ghost var before := repo.redis;
      repo.ClearSellerProductCaches(sellerIds);
      DistinctClears(before, repo.redis, Sellers(created), sellerIds);
    }

    method BatchUpdateProducts(products: seq<Product>, paths: seq<string>, userId: int, role: Role,
                               updateError: bool, commitError: bool) returns (err: bool)
      requires NoDup(paths)
      modifies repo
      ensures err <==> role.OtherRole? || (products != [] && paths != [] && (LacksSkus(products, paths) || updateError || commitError))
      ensures err || products == [] || paths == [] ==> repo.Now() == old(repo.Now())
      ensures !err && products != [] && paths != [] ==>
                exists filtered :: FilteredFor(products, userId, role, filtered) && Next(old(repo.Now()), Update(filtered, paths), repo.Now())
    {
      var filtered;
      err, filtered := ProductsFilter(products, userId, role);
      if err {
        return;
      }
      FilterKeepsSkus(products, userId, role, filtered, paths);
      err := repo.BatchUpdateProducts(filtered, paths, updateError, commitError);
    }
  }

  lemma FilterKeepsSkus(products: seq<Product>, userId: int, role: Role, filtered: seq<Product>, paths: seq<string>)
    requires FilteredFor(products, userId, role, filtered)
    ensures LacksSkus(filtered, paths) <==> LacksSkus(products, paths)
  {
    forall i | 0 <= i < |products| ensures products[i] in products && filtered[i] in filtered && filtered[i].skus == products[i].skus {
    }
  }

  method CreatedSkuIds(created: seq<Product>) returns (skuIds: seq<nat>)
    ensures skuIds == SkuIds(Flatten(created))
  {
    skuIds := [];
    for i := 0 to |created|
      invariant skuIds == SkuIds(Flatten(created[..i]))
    {
      var p := created[i];
      assert created[..i + 1][..i] == created[..i];
      for j := 0 to |p.skus|
        invariant skuIds == SkuIds(Flatten(created[..i]) + p.skus[..j])
      {
        skuIds := skuIds + [p.skus[j].id];
      }
      assert p.skus[..|p.skus|] == p.skus;
    }
    assert created[..|created|] == created;
  }

  lemma {:induction false} InsertedSkus(db: Tables, products: seq<Product>, sku: nat)
    ensures sku in Inserted(db, products).skus <==> sku in db.skus || sku in SkuIds(Flatten(products))
  {
    if products != [] {
      var n := |products| - 1;
      InsertedSkus(db, products[..n], sku);
      InsertSkusFacts(Inserted(db, products[..n]).skus, products[n].id, products[n].skus, sku);
      ColumnsAppend(Flatten(products[..n]), products[n].skus);
    }
  }

  lemma NewSkusNamed(db: Tables, created: seq<Product>)
    ensures forall p, s :: p in created && s in p.skus ==>
              s.id in SkuIds(Flatten(created)) && s.id in Inserted(db, created).skus
  {
    forall p, s | p in created && s in p.skus ensures s.id in SkuIds(Flatten(created)) && s.id in Inserted(db, created).skus {
      InFlatten(created, p, s);
      var i :| 0 <= i < |Flatten(created)| && Flatten(created)[i] == s;
      assert SkuIds(Flatten(created))[i] == s.id;
      InsertedSkus(db, created, s.id);
    }
  }

  lemma NewSkusAnnounced(db: Tables, created: seq<Product>, events: seq<seq<nat>>)
    ensures Announced(db, events) ==> Announced(Inserted(db, created), events + [SkuIds(Flatten(created))])
  {
    if Announced(db, events) {
      var e' := SkuIds(Flatten(created));
      forall sku ensures sku in Inserted(db, created).skus <==> exists e :: e in events + [e'] && sku in e {
        InsertedSkus(db, created, sku);
        if sku in e' {
          assert e' in events + [e'];
        }
        if sku in db.skus {
          var e :| e in events && sku in e;
          assert e in events + [e'];
        }
      }
    }
  }

  /** One product of seller 2, listed, then renamed by merchant 1, then listed
      again: the second answer is the first one, which is no longer right. */
  method RenamedByAnother() returns (stale: seq<Product>, now: Tables)
    ensures 1 in now.products && now.products[1] == ProductRow("new", 2, "active")
    ensures !IsListing(now, 2, 0, -1, UNSPECIFIED, stale)
  {
    var db := Tables(map[1 := ProductRow("old", 2, "active")], map[1 := SkuRow(1, "{}", "1.00")]);
    var repo := new ProductRepo(db);
    var usecase := new ProductUsecase(repo);
    ghost var empty := repo.Now();
    assert Coherent(db, map[]);
    var err, listed := repo.ListProductsBySellerID(2, 0, -1, UNSPECIFIED, false);
    ghost var before := repo.Now();
    FirstListing(empty, listed, before);
    var request := [Product(1, "new", 0, "", [])];
    var paths := [NAME_PATH];
    err := usecase.BatchUpdateProducts(request, paths, 1, Merchant, false, false);
    assert !LacksSkus(request, paths);
    ghost var filtered :| FilteredFor(request, 1, Merchant, filtered) && Next(before, Update(filtered, paths), repo.Now());
    assert filtered == [Product(1, "new", 1, OFFLINE, [])];
    RenameLeavesStale(before, repo.Now(), filtered[0], 1, 2);
    Renamed(before.db, repo.db, filtered[0]);
    err, stale := repo.ListProductsBySellerID(2, 0, -1, UNSPECIFIED, false);
    now := repo.db;
  }

  lemma FirstListing(a: Shop, listed: seq<Product>, b: Shop)
    requires a.redis == map[] && Next(a, List(2, 0, -1, UNSPECIFIED, listed), b)
    ensures b.db == a.db && Coherent(b.db, b.redis) && HoldsFull(b.redis, 2)
  {
    CachedCoherent(a.db, map[], 2, 0, -1, UNSPECIFIED, listed);
    ListKeyIsNoSetKey(2, 0, -1, UNSPECIFIED, 2);
  }
}
