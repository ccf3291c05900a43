/** The product repository: tables, and the Redis cache of listings that every
    change has to invalidate. */
module ProductCache {
  import opened Basics
  import opened CacheKeys
  import opened Listing
  import opened BatchUpdate

  /** A Redis value: a cached listing, or a seller's set of listing keys. */
  datatype Entry = Listed(products: seq<Product>) | KeySet(members: set<string>)

  type Redis = map<string, Entry>

  // ------------------------------------------------------------- the database

  function RowOf(db: Tables, sku: nat): Row
    requires sku in db.skus && db.skus[sku].productId in db.products
  {
    var s := db.skus[sku];
    var p := db.products[s.productId];
    Row(s.productId, p.name, p.status, sku, s.attrs, s.unitPrice)
  }

  predicate OfSeller(db: Tables, sku: nat, sellerId: int) {
    sku in db.skus && db.skus[sku].productId in db.products && db.products[db.skus[sku].productId].sellerId == sellerId
  }

  /** products JOIN skus, for one seller. */
  function JoinedRows(db: Tables, sellerId: int): set<Row> {
    set sku | sku in db.skus && OfSeller(db, sku, sellerId) :: RowOf(db, sku)
  }

  /** The foreign key of skus. */
  predicate ForeignKeys(db: Tables) {
    forall sku :: sku in db.skus ==> db.skus[sku].productId in db.products
  }

  /** `products` is a listing that an uncached call may return now. */
  ghost predicate IsListing(db: Tables, sellerId: int, pageToken: Uuid, pageSize: int, status: string, products: seq<Product>) {
    exists rows :: IsAnswer(JoinedRows(db, sellerId), pageToken, pageSize, status, rows) && IsGrouping(sellerId, rows, products)
  }

  /** The same joined rows, as far as a page can show them: a page never reaches
      the nil product id. */
  ghost predicate SameListings(db: Tables, db': Tables, sellerId: int) {
    forall r: Row :: 0 < r.id ==> (r in JoinedRows(db, sellerId) <==> r in JoinedRows(db', sellerId))
  }

  lemma SameAnswers(db: Tables, db': Tables, sellerId: int, pageToken: Uuid, pageSize: int, status: string, products: seq<Product>)
    requires SameListings(db, db', sellerId)
    requires IsListing(db, sellerId, pageToken, pageSize, status, products)
    ensures IsListing(db', sellerId, pageToken, pageSize, status, products)
  {
    var rows :| IsAnswer(JoinedRows(db, sellerId), pageToken, pageSize, status, rows) && IsGrouping(sellerId, rows, products);
    assert IsAnswer(JoinedRows(db', sellerId), pageToken, pageSize, status, rows);
  }

  /** The inserts of a batch: refused as a whole if an id is taken or repeated, or
      if a seller would have two products of one name. */
  predicate Insertable(db: Tables, products: seq<Product>) {
    && NoDup(ProductIds(products))
    && (forall p :: p in products ==> p.id !in db.products)
    && (forall i, j, s :: 0 <= i < |products| && 0 <= j < |products| && s in products[i].skus ==>
          s.id !in db.skus && (i != j ==> forall t :: t in products[j].skus ==> s.id != t.id))
    && (forall p :: p in products ==> NoDup(SkuIds(p.skus)))
    && (forall p, id :: p in products && id in db.products ==>
          !(db.products[id].sellerId == p.sellerId && db.products[id].name == p.name))
    && (forall i, j :: 0 <= i < j < |products| ==>
          !(products[i].sellerId == products[j].sellerId && products[i].name == products[j].name))
  }

  function InsertSkus(t: map<nat, SkuRow>, productId: nat, skus: seq<Sku>): map<nat, SkuRow> {
    if skus == [] then t
    else
      var s := skus[|skus| - 1];
      InsertSkus(t, productId, skus[..|skus| - 1])[s.id := SkuRow(productId, s.attrs, s.unitPrice)]
  }

  function Inserted(db: Tables, products: seq<Product>): Tables {
    if products == [] then db
    else
      var p := products[|products| - 1];
      var before := Inserted(db, products[..|products| - 1]);
      Tables(before.products[p.id := ProductRow(p.name, p.sellerId, p.status)], InsertSkus(before.skus, p.id, p.skus))
  }

  // ---------------------------------------------------------- invalidation

  predicate HasMembers(redis: Redis, setKey: string) {
    setKey in redis && redis[setKey].KeySet? && redis[setKey].members != {}
  }

  function ClearOne(redis: Redis, setKey: string): Redis {
    if HasMembers(redis, setKey) then redis - (redis[setKey].members + {setKey}) else redis
  }

  /** Delete every member of the sets and the sets, one set after the other. */
  function Cleared(redis: Redis, setKeys: seq<string>): Redis {
    if setKeys == [] then redis else ClearOne(Cleared(redis, setKeys[..|setKeys| - 1]), setKeys[|setKeys| - 1])
  }

  /** SADD: refused, and only logged, if the key holds something else. */
  function SetAdded(redis: Redis, setKey: string, key: string): Redis {
    if setKey !in redis then redis[setKey := KeySet({key})]
    else if redis[setKey].KeySet? then redis[setKey := KeySet(redis[setKey].members + {key})]
    else redis
  }

  /** `redis` after a listing has been cached and registered. */
  function Cached(redis: Redis, sellerId: int, key: string, products: seq<Product>): Redis {
    SetAdded(redis[key := Listed(products)], SetKey(sellerId), key)
  }

  // -------------------------------------------------------------- coherence

  ghost predicate IsListKeyOf(key: string, sellerId: int) {
    exists t: Uuid, n, status :: key == ListKey(sellerId, t, n, status)
  }

  /** Key sets hold only listing keys of their seller, and every live listing is in
      its seller's key set. */
  ghost predicate Registered(redis: Redis) {
    && (forall s :: SetKey(s) in redis ==>
          redis[SetKey(s)].KeySet? && forall key :: key in redis[SetKey(s)].members ==> IsListKeyOf(key, s))
    && (forall s, t: Uuid, n, status :: ListKey(s, t, n, status) in redis ==>
          && redis[ListKey(s, t, n, status)].Listed?
          && SetKey(s) in redis && redis[SetKey(s)].KeySet?
          && ListKey(s, t, n, status) in redis[SetKey(s)].members)
  }

  /** Every live listing of the seller is what the query would return now. */
  ghost predicate Fresh(db: Tables, redis: Redis, sellerId: int) {
    forall t: Uuid, n, status :: ListKey(sellerId, t, n, status) in redis ==>
      && redis[ListKey(sellerId, t, n, status)].Listed?
      && IsListing(db, sellerId, t, n, status, redis[ListKey(sellerId, t, n, status)].products)
  }

  ghost predicate Coherent(db: Tables, redis: Redis) {
    Registered(redis) && forall s :: Fresh(db, redis, s)
  }

  lemma CachedCoherent(db: Tables, redis: Redis, s: int, t: Uuid, n: int, status: string, products: seq<Product>)
    requires Coherent(db, redis)
    requires IsListing(db, s, t, n, status, products)
    ensures Coherent(db, Cached(redis, s, ListKey(s, t, n, status), products))
  {
    var key := ListKey(s, t, n, status);
    var after := Cached(redis, s, key, products);
    ListKeyIsNoSetKey(s, t, n, status, s);
    CachedRegistered(redis, s, t, n, status, products);
    forall s' ensures Fresh(db, after, s') {
      assert Fresh(db, redis, s');
      forall t': Uuid, n', status' | ListKey(s', t', n', status') in after
        ensures after[ListKey(s', t', n', status')].Listed?
        ensures IsListing(db, s', t', n', status', after[ListKey(s', t', n', status')].products)
      {
        ListKeyIsNoSetKey(s', t', n', status', s);
        if ListKey(s', t', n', status') == key {
          ListKeyInjective(s', t', n', status', s, t, n, status);
        }
      }
    }
  }

  lemma CachedRegistered(redis: Redis, s: int, t: Uuid, n: int, status: string, products: seq<Product>)
    requires Registered(redis)
    ensures Registered(Cached(redis, s, ListKey(s, t, n, status), products))
  {
    var key := ListKey(s, t, n, status);
    var after := Cached(redis, s, key, products);
    assert IsListKeyOf(key, s);
    forall s' | SetKey(s') in after
      ensures after[SetKey(s')].KeySet? && forall k :: k in after[SetKey(s')].members ==> IsListKeyOf(k, s')
    {
      ListKeyIsNoSetKey(s, t, n, status, s');
      if SetKey(s') == SetKey(s) {
        SetKeyInjective(s', s);
      }
    }
    forall s', t': Uuid, n', status' | ListKey(s', t', n', status') in after
      ensures after[ListKey(s', t', n', status')].Listed?
      ensures SetKey(s') in after && after[SetKey(s')].KeySet? && ListKey(s', t', n', status') in after[SetKey(s')].members
    {
      ListKeyIsNoSetKey(s', t', n', status', s);
      ListKeyIsNoSetKey(s, t, n, status, s');
      if ListKey(s', t', n', status') == key {
        ListKeyInjective(s', t', n', status', s, t, n, status);
      }
    }
  }

  /** Clearing one seller drops all its listings and nothing of the others. */
  lemma ClearOneSeller(redis: Redis, s: int)
    requires Registered(redis)
    ensures Registered(ClearOne(redis, SetKey(s)))
    ensures forall t: Uuid, n, status :: ListKey(s, t, n, status) !in ClearOne(redis, SetKey(s))
    ensures forall s', t: Uuid, n, status :: s' != s && ListKey(s', t, n, status) in redis ==>
              ListKey(s', t, n, status) in ClearOne(redis, SetKey(s))
  {
    var after := ClearOne(redis, SetKey(s));
    forall s' | s' != s ensures SetKey(s') in redis ==> SetKey(s') in after {
      if SetKey(s') == SetKey(s) {
        SetKeyInjective(s', s);
      }
      if HasMembers(redis, SetKey(s)) && SetKey(s') in redis[SetKey(s)].members {
        var t: Uuid, n, status :| SetKey(s') == ListKey(s, t, n, status);
        ListKeyIsNoSetKey(s, t, n, status, s');
      }
    }
    forall s', t: Uuid, n, status | s' != s && ListKey(s', t, n, status) in redis
      ensures ListKey(s', t, n, status) in after
    {
      ListKeyIsNoSetKey(s', t, n, status, s);
      if HasMembers(redis, SetKey(s)) && ListKey(s', t, n, status) in redis[SetKey(s)].members {
        var t': Uuid, n', status' :| ListKey(s', t, n, status) == ListKey(s, t', n', status');
        ListKeyInjective(s', t, n, status, s, t', n', status');
      }
    }
  }

  lemma ClearOneShrinks(redis: Redis, setKey: string)
    ensures forall k :: k in ClearOne(redis, setKey) ==> k in redis && ClearOne(redis, setKey)[k] == redis[k]
  {
  }

  ghost predicate IsSetKey(key: string) {
    exists s :: key == SetKey(s)
  }

  /** `setKeys` are the keys of the sellers' key sets, in any order. */
  ghost predicate AreSetKeys(setKeys: seq<string>, sellers: seq<int>) {
    && (forall s :: s in sellers ==> SetKey(s) in setKeys)
    && (forall k :: k in setKeys ==> IsSetKey(k) && exists s :: s in sellers && k == SetKey(s))
  }

  lemma NotCarried(setKeys: seq<string>, sellers: seq<int>, seller: int)
    requires AreSetKeys(setKeys, sellers) && seller !in sellers
    ensures SetKey(seller) !in setKeys
  {
    if SetKey(seller) in setKeys {
      var s :| s in sellers && SetKey(seller) == SetKey(s);
      SetKeyInjective(seller, s);
    }
  }

  /** Clearing some sellers drops all their listings and nothing of the others. */
  lemma {:induction false} ClearSellers(redis: Redis, setKeys: seq<string>)
    requires Registered(redis)
    requires forall k :: k in setKeys ==> IsSetKey(k)
    ensures var after := Cleared(redis, setKeys);
            && Registered(after)
            && (forall k :: k in after ==> k in redis && after[k] == redis[k])
            && (forall s, t: Uuid, n, status :: SetKey(s) in setKeys ==> ListKey(s, t, n, status) !in after)
            && (forall s, t: Uuid, n, status :: SetKey(s) !in setKeys && ListKey(s, t, n, status) in redis ==> ListKey(s, t, n, status) in after)
            && (forall k :: k in setKeys && k in after ==> !HasMembers(after, k))
  {
    if setKeys != [] {
      var i := |setKeys| - 1;
      assert setKeys == setKeys[..i] + [setKeys[i]];
      assert IsSetKey(setKeys[i]);
      ClearSellers(redis, setKeys[..i]);
      var before := Cleared(redis, setKeys[..i]);
      var last :| setKeys[i] == SetKey(last);
      ClearOneSeller(before, last);
      ClearOneShrinks(before, setKeys[i]);
      var after := Cleared(redis, setKeys);
      forall k | k in setKeys && k in after ensures !HasMembers(after, k) {
        assert after[k] == before[k];
      }
      forall s, t: Uuid, n, status | SetKey(s) in setKeys ensures ListKey(s, t, n, status) !in after {
        if SetKey(s) == SetKey(last) {
          SetKeyInjective(s, last);
        }
      }
    }
  }

  /** A change of the tables followed by clearing some sellers keeps the cache
      coherent if no other seller's joined rows have changed. */
  lemma ClearedCoherent(db: Tables, db': Tables, redis: Redis, setKeys: seq<string>, sellers: seq<int>)
    requires Coherent(db, redis) && AreSetKeys(setKeys, sellers)
    requires forall s :: s !in sellers ==> SameListings(db, db', s)
    ensures Coherent(db', Cleared(redis, setKeys))
  {
    ClearSellers(redis, setKeys);
    var after := Cleared(redis, setKeys);
    forall s ensures Fresh(db', after, s) {
      assert Fresh(db, redis, s);
      if s !in sellers {
        assert SameListings(db, db', s);
        forall t: Uuid, n, status | ListKey(s, t, n, status) in after
          ensures IsListing(db', s, t, n, status, after[ListKey(s, t, n, status)].products)
        {
          SameAnswers(db, db', s, t, n, status, after[ListKey(s, t, n, status)].products);
        }
      }
    }
  }

  // ---------------------------------------------------- effect on other rows

  /** The products and SKUs to be updated belong to the sellers they carry. */
  ghost predicate Owned(db: Tables, products: seq<Product>, paths: seq<string>) {
    && (NAME_PATH in paths ==> forall p :: p in products && p.id in db.products ==> db.products[p.id].sellerId == p.sellerId)
    && (SKUS_PATH in paths ==> forall p, s :: p in products && s in p.skus && s.id in db.skus && db.skus[s.id].productId in db.products ==>
          db.products[db.skus[s.id].productId].sellerId == p.sellerId)
  }

  function Sellers(products: seq<Product>): (sellers: seq<int>)
    ensures |sellers| == |products|
  {
    seq(|products|, i requires 0 <= i < |products| => products[i].sellerId)
  }

  lemma {:induction false} FromSomeProduct(products: seq<Product>, s: Sku)
    requires s in Flatten(products)
    ensures exists p :: p in products && s in p.skus
  {
    var n := |products| - 1;
    assert products == products[..n] + [products[n]];
    if s in Flatten(products[..n]) {
      FromSomeProduct(products[..n], s);
    } else {
      assert products[n] in products;
    }
  }

  lemma SellerListed(products: seq<Product>, p: Product)
    requires p in products
    ensures p.sellerId in Sellers(products)
  {
    var i :| 0 <= i < |products| && products[i] == p;
    assert Sellers(products)[i] == p.sellerId;
  }

  lemma UpdateKeepsJoin(db: Tables, db': Tables, products: seq<Product>, paths: seq<string>)
    requires Applied(db, db', products, paths)
    ensures db'.products.Keys == db.products.Keys && db'.skus.Keys == db.skus.Keys
    ensures forall id :: id in db.products ==> db'.products[id].sellerId == db.products[id].sellerId && db'.products[id].status == db.products[id].status
    ensures forall sku :: sku in db.skus ==> db'.skus[sku].productId == db.skus[sku].productId
    ensures forall sku, s :: OfSeller(db', sku, s) <==> OfSeller(db, sku, s)
  {
  }

  /** An owned update leaves the rows of every seller it does not carry. */
  lemma OwnedUpdateForeign(db: Tables, db': Tables, products: seq<Product>, paths: seq<string>, seller: int)
    requires Applied(db, db', products, paths) && Owned(db, products, paths)
    requires seller !in Sellers(products)
    ensures JoinedRows(db', seller) == JoinedRows(db, seller)
  {
    UpdateKeepsJoin(db, db', products, paths);
    forall sku | OfSeller(db, sku, seller) ensures RowOf(db', sku) == RowOf(db, sku) {
      var id := db.skus[sku].productId;
      if NAME_PATH in paths && id in ProductIds(products) {
        var i :| 0 <= i < |products| && ProductIds(products)[i] == id;
        SellerListed(products, products[i]);
      }
      if SKUS_PATH in paths && sku in SkuIds(Flatten(products)) {
        var i :| 0 <= i < |Flatten(products)| && SkuIds(Flatten(products))[i] == sku;
        FromSomeProduct(products, Flatten(products)[i]);
        var p :| p in products && Flatten(products)[i] in p.skus;
        SellerListed(products, p);
      }
    }
    SameJoin(db, db', seller);
  }

  lemma SameJoin(db: Tables, db': Tables, seller: int)
    requires forall sku :: OfSeller(db', sku, seller) <==> OfSeller(db, sku, seller)
    requires forall sku :: OfSeller(db, sku, seller) && OfSeller(db', sku, seller) ==> RowOf(db', sku) == RowOf(db, sku)
    ensures JoinedRows(db', seller) == JoinedRows(db, seller)
  {
    forall r | r in JoinedRows(db, seller) ensures r in JoinedRows(db', seller) {
      var sku :| sku in db.skus && OfSeller(db, sku, seller) && RowOf(db, sku) == r;
      assert OfSeller(db', sku, seller) && RowOf(db', sku) == r;
    }
    forall r | r in JoinedRows(db', seller) ensures r in JoinedRows(db, seller) {
      var sku :| sku in db'.skus && OfSeller(db', sku, seller) && RowOf(db', sku) == r;
      assert OfSeller(db, sku, seller) && RowOf(db, sku) == r;
    }
  }

  lemma {:induction false} InsertSkusFacts(t: map<nat, SkuRow>, productId: nat, skus: seq<Sku>, sku: nat)
    ensures sku in InsertSkus(t, productId, skus) <==> sku in t || sku in SkuIds(skus)
    ensures sku in SkuIds(skus) ==> InsertSkus(t, productId, skus)[sku].productId == productId
    ensures sku in t && sku !in SkuIds(skus) ==> InsertSkus(t, productId, skus)[sku] == t[sku]
  {
    if skus != [] {
      var n := |skus| - 1;
      assert SkuIds(skus) == SkuIds(skus[..n]) + [skus[n].id];
      InsertSkusFacts(t, productId, skus[..n], sku);
    }
  }

  /** Old rows stay; a new SKU belongs to a product of the batch. */
  lemma {:induction false} InsertedFacts(db: Tables, products: seq<Product>)
    requires forall p :: p in products ==> p.id !in db.products
    requires forall p, s :: p in products && s in p.skus ==> s.id !in db.skus
    ensures var after := Inserted(db, products);
            && (forall id :: id in after.products <==> id in db.products || id in ProductIds(products))
            && (forall id :: id in db.products ==> after.products[id] == db.products[id])
            && (forall sku :: sku in db.skus ==> sku in after.skus && after.skus[sku] == db.skus[sku])
            && (forall sku :: sku in after.skus && sku !in db.skus ==> after.skus[sku].productId in ProductIds(products))
            && (forall id :: id in after.products && id !in db.products ==> after.products[id].sellerId in Sellers(products))
  {
    if products != [] {
      var n := |products| - 1;
      var p := products[n];
      assert products == products[..n] + [p];
      assert ProductIds(products) == ProductIds(products[..n]) + [p.id];
      assert Sellers(products) == Sellers(products[..n]) + [p.sellerId];
      InsertedFacts(db, products[..n]);
      var before := Inserted(db, products[..n]);
      forall sku ensures sku in db.skus ==> sku !in SkuIds(p.skus) {
        if sku in SkuIds(p.skus) {
          var i :| 0 <= i < |p.skus| && SkuIds(p.skus)[i] == sku;
          assert p.skus[i] in p.skus;
        }
      }
      forall sku {
        InsertSkusFacts(before.skus, p.id, p.skus, sku);
      }
    }
  }

  lemma InsertForeign(db: Tables, products: seq<Product>, seller: int)
    requires ForeignKeys(db) && Insertable(db, products)
    requires seller !in Sellers(products)
    ensures JoinedRows(Inserted(db, products), seller) == JoinedRows(db, seller)
  {
    InsertableIds(db, products);
    InsertedFacts(db, products);
    SameJoin(db, Inserted(db, products), seller);
  }

  lemma InsertableIds(db: Tables, products: seq<Product>)
    requires Insertable(db, products)
    ensures forall p, s :: p in products && s in p.skus ==> s.id !in db.skus
  {
    forall p, s | p in products && s in p.skus ensures s.id !in db.skus {
      var i :| 0 <= i < |products| && products[i] == p;
    }
  }

  lemma InsertForeignKeys(db: Tables, products: seq<Product>)
    requires ForeignKeys(db) && Insertable(db, products)
    ensures ForeignKeys(Inserted(db, products))
  {
    InsertableIds(db, products);
    InsertedFacts(db, products);
  }

  // ------------------------------------------------------------------- steps

  datatype Shop = Shop(db: Tables, redis: Redis)

  datatype Step =
    | List(sellerId: int, pageToken: Uuid, pageSize: int, status: string, products: seq<Product>)
    | Create(batch: seq<Product>)
    | Update(changes: seq<Product>, paths: seq<string>)
    | Expire(expiredSeller: int, expiredToken: Uuid, expiredSize: int, expiredStatus: string)
    | Refused

  /** The Redis keys of the sellers are cleared, in whatever order. */
  ghost predicate ClearedFor(before: Redis, after: Redis, sellers: seq<int>) {
    exists setKeys :: AreSetKeys(setKeys, sellers) && after == Cleared(before, setKeys)
  }

  ghost predicate Hit(redis: Redis, key: string) {
    key in redis && redis[key].Listed?
  }

  /** One call, or one listing running out of its time to live. */
  ghost predicate Next(a: Shop, e: Step, b: Shop) {
    match e
    case List(s, t, n, status, products) =>
      var key := ListKey(s, t, n, status);
      if Hit(a.redis, key) then products == a.redis[key].products && b == a
      else IsListing(a.db, s, t, n, status, products) && b == a.(redis := Cached(a.redis, s, key, products))
    case Create(batch) =>
      && Insertable(a.db, batch)
      && b.db == Inserted(a.db, batch)
      && ClearedFor(a.redis, b.redis, Sellers(batch))
    case Update(changes, paths) =>
      && Applied(a.db, b.db, changes, paths)
      && ClearedFor(a.redis, b.redis, Sellers(changes))
    case Expire(s, t, n, status) =>
      b == a.(redis := a.redis - {ListKey(s, t, n, status)})
    case Refused =>
      b == a
  }

  lemma ExpireCoherent(db: Tables, redis: Redis, s: int, t: Uuid, n: int, status: string)
    requires Coherent(db, redis)
    ensures Coherent(db, redis - {ListKey(s, t, n, status)})
  {
    var key := ListKey(s, t, n, status);
    var after := redis - {key};
    forall s' ensures SetKey(s') != key {
      ListKeyIsNoSetKey(s, t, n, status, s');
    }
    assert Registered(after);
    forall s' ensures Fresh(db, after, s') {
      assert Fresh(db, redis, s');
    }
  }

  /** Every step keeps the cache coherent, and what a listing call answers, from
      the cache or not, is an answer of the query now. */
  lemma StepCoherent(a: Shop, e: Step, b: Shop)
    requires Coherent(a.db, a.redis) && ForeignKeys(a.db) && Next(a, e, b)
    requires e.Update? ==> Owned(a.db, e.changes, e.paths)
    ensures Coherent(b.db, b.redis) && ForeignKeys(b.db)
    ensures e.List? ==> IsListing(a.db, e.sellerId, e.pageToken, e.pageSize, e.status, e.products)
  {
    match e
    case List(s, t, n, status, products) =>
      assert Fresh(a.db, a.redis, s);
      if !Hit(a.redis, ListKey(s, t, n, status)) {
        CachedCoherent(a.db, a.redis, s, t, n, status, products);
      }
    case Create(batch) =>
      InsertForeignKeys(a.db, batch);
      forall s | s !in Sellers(batch) ensures SameListings(a.db, b.db, s) {
        InsertForeign(a.db, batch, s);
      }
      var setKeys :| AreSetKeys(setKeys, Sellers(batch)) && b.redis == Cleared(a.redis, setKeys);
      ClearedCoherent(a.db, b.db, a.redis, setKeys, Sellers(batch));
    case Update(changes, paths) =>
      UpdateKeepsJoin(a.db, b.db, changes, paths);
      forall s | s !in Sellers(changes) ensures SameListings(a.db, b.db, s) {
        OwnedUpdateForeign(a.db, b.db, changes, paths, s);
      }
      var setKeys :| AreSetKeys(setKeys, Sellers(changes)) && b.redis == Cleared(a.redis, setKeys);
      ClearedCoherent(a.db, b.db, a.redis, setKeys, Sellers(changes));
    case Expire(s, t, n, status) =>
      ExpireCoherent(a.db, a.redis, s, t, n, status);
    case Refused =>
  }

  ghost predicate IsRun(shops: seq<Shop>, steps: seq<Step>) {
    && |shops| == |steps| + 1
    && forall i :: 0 <= i < |steps| ==>
         && Next(shops[i], steps[i], shops[i + 1])
         && (steps[i].Update? ==> Owned(shops[i].db, steps[i].changes, steps[i].paths))
  }

  lemma {:induction false} RunCoherent(shops: seq<Shop>, steps: seq<Step>, i: nat)
    requires IsRun(shops, steps) && i <= |steps|
    requires shops[0].redis == map[] && ForeignKeys(shops[0].db)
    ensures Coherent(shops[i].db, shops[i].redis) && ForeignKeys(shops[i].db)
  {
    if i > 0 {
      RunCoherent(shops, steps, i - 1);
      StepCoherent(shops[i - 1], steps[i - 1], shops[i]);
    }
  }

  /** A cached listing refines the uncached one: in every run that starts with an
      empty cache, each answer of the listing is one the query would give then. */
  lemma CacheIsTransparent(shops: seq<Shop>, steps: seq<Step>, i: nat)
    requires IsRun(shops, steps) && i <= |steps|
    requires shops[0].redis == map[] && ForeignKeys(shops[0].db)
    ensures Coherent(shops[i].db, shops[i].redis) && ForeignKeys(shops[i].db)
    ensures i < |steps| && steps[i].List? ==>
              IsListing(shops[i].db, steps[i].sellerId, steps[i].pageToken, steps[i].pageSize, steps[i].status, steps[i].products)
  {
    RunCoherent(shops, steps, i);
    if i < |steps| {
      StepCoherent(shops[i], steps[i], shops[i + 1]);
    }
  }

  // ------------------------------------- exactly when an update is safe to cache

  /** The row that a listing shows for this SKU of this product. */
  function Shown(p: Product, s: Sku): Row {
    Row(p.id, p.name, p.status, s.id, s.attrs, s.unitPrice)
  }

  ghost predicate Shows(products: seq<Product>, r: Row) {
    exists p, s :: p in products && s in p.skus && Shown(p, s) == r
  }

  /** The product that a row belongs to in a grouping of unambiguous rows. */
  lemma HeadRow(rows: seq<Row>, seller: int, products: seq<Product>, p: Product, r: Row)
    requires IsGrouping(seller, rows, products) && p in products
    requires r in rows && r.id == p.id
    requires forall q, q' :: q in rows && q' in rows && q.id == q'.id ==> q.name == q'.name && q.status == q'.status
    ensures p.name == r.name && p.status == r.status
    ensures r.ToSku() in p.skus && Shown(p, r.ToSku()) == r
  {
    SkusOfRows(rows, r.id);
    var i :| 0 <= i < |rows| && IsFirst(rows, i, p.id) && p.name == rows[i].name && p.status == rows[i].status;
    assert rows[i] in rows;
  }

  lemma GroupingShows(rows: seq<Row>, seller: int, products: seq<Product>, r: Row)
    requires IsGrouping(seller, rows, products)
    requires forall q, q' :: q in rows && q' in rows && q.id == q'.id ==> q.name == q'.name && q.status == q'.status
    ensures Shows(products, r) <==> r in rows
  {
    if r in rows {
      FirstSeenFacts(rows);
      assert r.id in FirstSeen(rows);
      var k :| 0 <= k < |products| && ProductIds(products)[k] == r.id;
      HeadRow(rows, seller, products, products[k], r);
    }
    if Shows(products, r) {
      var p, s :| p in products && s in p.skus && Shown(p, s) == r;
      SkusOfRows(rows, p.id);
      var q :| q in rows && q.id == p.id && s == Sku(q.skuId, q.id, q.attrs, q.unitPrice);
      HeadRow(rows, seller, products, p, q);
    }
  }

  /** An unlimited, unfiltered listing from the start shows exactly the seller's
      joined rows. */
  lemma FullListing(db: Tables, seller: int, products: seq<Product>, r: Row)
    requires IsListing(db, seller, 0, -1, UNSPECIFIED, products)
    ensures Shows(products, r) <==> 0 < r.id && r in JoinedRows(db, seller)
  {
    var rows: seq<Row> :| IsAnswer(JoinedRows(db, seller), 0, -1, UNSPECIFIED, rows) && IsGrouping(seller, rows, products);
    GroupingShows(rows, seller, products, r);
    if 0 < r.id && r in JoinedRows(db, seller) {
      assert Matches(r, 0, UNSPECIFIED);
    }
  }

  // ------------------------------------------ a listing in the columns of the tables

  lemma JoinedUnambiguous(db: Tables, seller: int, rows: seq<Row>)
    requires forall r :: r in rows ==> r in JoinedRows(db, seller)
    ensures forall q, q' :: q in rows && q' in rows && q.id == q'.id ==> q.name == q'.name && q.status == q'.status
  {
  }

  /** What a listing shows is what the tables hold, column by column: the product's
      name, status and seller, the SKU's product, attributes and price; the product
      lies past the token and has the status that was asked for. */
  lemma ListedAsStored(db: Tables, seller: int, token: Uuid, size: int, status: string, products: seq<Product>, p: Product, s: Sku)
    requires IsListing(db, seller, token, size, status, products)
    requires p in products && s in p.skus
    ensures p.id in db.products
    ensures p.name == db.products[p.id].name && p.status == db.products[p.id].status
    ensures p.sellerId == db.products[p.id].sellerId == seller
    ensures s.id in db.skus && db.skus[s.id].productId == p.id == s.productId
    ensures s.attrs == db.skus[s.id].attrs && s.unitPrice == db.skus[s.id].unitPrice
    ensures token < p.id && (status == "unspecified" || p.status == status)
  {
    var rows: seq<Row> :| IsAnswer(JoinedRows(db, seller), token, size, status, rows) && IsGrouping(seller, rows, products);
    JoinedUnambiguous(db, seller, rows);
    SkusOfRows(rows, p.id);
    var r :| r in rows && r.id == p.id && s == Sku(r.skuId, r.id, r.attrs, r.unitPrice);
    HeadRow(rows, seller, products, p, r);
    var sku :| sku in db.skus && OfSeller(db, sku, seller) && RowOf(db, sku) == r;
  }

  /** `products` shows the stored SKU. */
  ghost predicate ShowsSku(products: seq<Product>, sku: nat) {
    exists p, s :: p in products && s in p.skus && s.id == sku
  }

  /** Every SKU of the seller whose product lies past the token and has the status
      asked for is shown, unless the page is full: then it has exactly as many SKUs
      as were asked for, and all its products come no later. A page without a limit
      so shows all of them. */
  lemma StoredIsListed(db: Tables, seller: int, token: Uuid, size: int, status: string, products: seq<Product>, sku: nat)
    requires IsListing(db, seller, token, size, status, products)
    requires sku in db.skus && db.skus[sku].productId in db.products
    requires db.products[db.skus[sku].productId].sellerId == seller
    requires token < db.skus[sku].productId
    requires status == "unspecified" || db.products[db.skus[sku].productId].status == status
    ensures ShowsSku(products, sku) || (|Flatten(products)| == size && forall p :: p in products ==> p.id <= db.skus[sku].productId)
  {
    var rows: seq<Row> :| IsAnswer(JoinedRows(db, seller), token, size, status, rows) && IsGrouping(seller, rows, products);
    var r := RowOf(db, sku);
    assert OfSeller(db, sku, seller) && r in JoinedRows(db, seller) && Matches(r, token, status);
    if r in rows {
      JoinedUnambiguous(db, seller, rows);
      GroupingShows(rows, seller, products, r);
      var p, s :| p in products && s in p.skus && Shown(p, s) == r;
    } else {
      FullPage(rows, seller, products, r.id);
    }
  }

  lemma FullPage(rows: seq<Row>, seller: int, products: seq<Product>, last: nat)
    requires IsGrouping(seller, rows, products)
    requires forall q :: q in rows ==> q.id <= last
    ensures |Flatten(products)| == |rows|
    ensures forall p :: p in products ==> p.id <= last
  {
    GroupingPartitions(seller, rows, products);
    assert |multiset(Flatten(products))| == |multiset(Skus(rows))|;
    forall p | p in products ensures p.id <= last {
      var i :| 0 <= i < |products| && products[i] == p;
      assert ProductIds(products)[i] == p.id;
    }
  }

  /** A page has no more SKUs than were asked for, shows its products in increasing
      id order, and none without a SKU. */
  lemma PageShape(db: Tables, seller: int, token: Uuid, size: int, status: string, products: seq<Product>)
    requires IsListing(db, seller, token, size, status, products)
    ensures 0 <= size ==> |Flatten(products)| <= size
    ensures forall i, j :: 0 <= i < j < |products| ==> products[i].id < products[j].id
    ensures forall p :: p in products ==> p.skus != []
  {
    var rows: seq<Row> :| IsAnswer(JoinedRows(db, seller), token, size, status, rows) && IsGrouping(seller, rows, products);
    AnswerInOrder(JoinedRows(db, seller), token, size, status, rows, seller, products);
    SortedFirstSeen(rows);
    forall i, j | 0 <= i < j < |products| ensures products[i].id < products[j].id {
      assert ProductIds(products)[i] == products[i].id && ProductIds(products)[j] == products[j].id;
    }
    forall p | p in products ensures p.skus != [] {
      NoneEmpty(db, seller, token, size, status, products, p);
    }
  }

  /** A listed product has at least one SKU. */
  lemma NoneEmpty(db: Tables, seller: int, token: Uuid, size: int, status: string, products: seq<Product>, p: Product)
    requires IsListing(db, seller, token, size, status, products) && p in products
    ensures p.skus != []
  {
    var rows: seq<Row> :| IsAnswer(JoinedRows(db, seller), token, size, status, rows) && IsGrouping(seller, rows, products);
    var i :| 0 <= i < |rows| && IsFirst(rows, i, p.id) && p.name == rows[i].name && p.status == rows[i].status;
    SkusOfRows(rows, p.id);
    assert rows[i] in rows && Sku(rows[i].skuId, rows[i].id, rows[i].attrs, rows[i].unitPrice) in p.skus;
  }

  // ------------------------------------------------- what creating and updating store

  lemma {:induction false} InsertSkusRow(t: map<nat, SkuRow>, productId: nat, skus: seq<Sku>, s: Sku)
    requires NoDup(SkuIds(skus)) && s in skus
    ensures s.id in InsertSkus(t, productId, skus)
    ensures InsertSkus(t, productId, skus)[s.id] == SkuRow(productId, s.attrs, s.unitPrice)
  {
    var n := |skus| - 1;
    assert skus == skus[..n] + [skus[n]];
    NoDupIff(SkuIds(skus[..n]), skus[n].id);
    assert SkuIds(skus) == SkuIds(skus[..n]) + [skus[n].id];
    if s != skus[n] {
      var i :| 0 <= i < n && skus[..n][i] == s;
      assert SkuIds(skus[..n])[i] == s.id;
      InsertSkusRow(t, productId, skus[..n], s);
    }
  }

  lemma InsertableFront(db: Tables, products: seq<Product>)
    requires Insertable(db, products) && products != []
    ensures Insertable(db, products[..|products| - 1])
  {
    var front := products[..|products| - 1];
    assert products == front + [products[|products| - 1]];
    assert ProductIds(products) == ProductIds(front) + [products[|products| - 1].id];
    NoDupIff(ProductIds(front), products[|products| - 1].id);
    forall i, j, s | 0 <= i < |front| && 0 <= j < |front| && s in front[i].skus
      ensures s.id !in db.skus && (i != j ==> forall t :: t in front[j].skus ==> s.id != t.id)
    {
      assert s in products[i].skus && front[j] == products[j];
    }
  }

  /** The last product of a batch shares no ids with the others. */
  lemma LastApart(db: Tables, products: seq<Product>, p: Product)
    requires Insertable(db, products) && p in products && p != products[|products| - 1]
    ensures p in products[..|products| - 1]
    ensures p.id != products[|products| - 1].id
    ensures forall s, t :: s in p.skus && t in products[|products| - 1].skus ==> s.id != t.id
  {
    var n := |products| - 1;
    assert products == products[..n] + [products[n]];
    var i :| 0 <= i < n && products[i] == p;
    assert ProductIds(products)[i] == p.id && ProductIds(products)[n] == products[n].id;
  }

  lemma OutsideSkus(skus: seq<Sku>, id: nat)
    requires forall t :: t in skus ==> t.id != id
    ensures id !in SkuIds(skus)
  {
  }

  /** Creating stores, column by column, what was asked for. */
  lemma {:induction false} InsertedRows(db: Tables, products: seq<Product>, p: Product)
    requires Insertable(db, products) && p in products
    ensures var after := Inserted(db, products);
            && p.id in after.products && after.products[p.id] == ProductRow(p.name, p.sellerId, p.status)
            && forall s :: s in p.skus ==> s.id in after.skus && after.skus[s.id] == SkuRow(p.id, s.attrs, s.unitPrice)
  {
    var n := |products| - 1;
    var last, before := products[n], Inserted(db, products[..n]);
    assert last in products;
    if p == last {
      forall s | s in p.skus {
        InsertSkusRow(before.skus, p.id, p.skus, s);
      }
    } else {
      LastApart(db, products, p);
      InsertableFront(db, products);
      InsertedRows(db, products[..n], p);
      KeptSkus(before.skus, p, last);
    }
  }

  lemma KeptSkus(t: map<nat, SkuRow>, p: Product, last: Product)
    requires forall s :: s in p.skus ==> s.id in t && forall u :: u in last.skus ==> s.id != u.id
    ensures var after := InsertSkus(t, last.id, last.skus); forall s :: s in p.skus ==> s.id in after && after[s.id] == t[s.id]
  {
    forall s | s in p.skus ensures s.id in InsertSkus(t, last.id, last.skus) && InsertSkus(t, last.id, last.skus)[s.id] == t[s.id] {
      OutsideSkus(last.skus, s.id);
      InsertSkusFacts(t, last.id, last.skus, s.id);
    }
  }

  /** A batch is refused exactly if two of its products share an id, or a name of one
      seller, if one of them has the id, or seller and name, of a stored product, if
      two of its SKUs share an id, or if one of them has the id of a stored SKU. */
  lemma RefusedExactly(db: Tables, products: seq<Product>)
    ensures !Insertable(db, products) <==>
              || (exists i, j :: 0 <= i < j < |products| &&
                    (products[i].id == products[j].id ||
                     (products[i].sellerId == products[j].sellerId && products[i].name == products[j].name)))
              || (exists p, id :: p in products && id in db.products &&
                    (p.id == id || (p.sellerId == db.products[id].sellerId && p.name == db.products[id].name)))
              || (exists i, j, s, t :: 0 <= i < j < |products| && s in products[i].skus && t in products[j].skus && s.id == t.id)
              || (exists p, a, b :: p in products && 0 <= a < b < |p.skus| && p.skus[a].id == p.skus[b].id)
              || (exists p, s :: p in products && s in p.skus && s.id in db.skus)
  {
    assert forall i :: 0 <= i < |products| ==> ProductIds(products)[i] == products[i].id && products[i] in products;
    forall p | p in products ensures NoDup(SkuIds(p.skus)) <==> forall a, b :: 0 <= a < b < |p.skus| ==> p.skus[a].id != p.skus[b].id {
      assert forall a :: 0 <= a < |p.skus| ==> SkuIds(p.skus)[a] == p.skus[a].id;
    }
  }

  /** The unique index on seller and name. */
  ghost predicate UniqueNames(db: Tables) {
    forall a, b :: a in db.products && b in db.products && a != b ==>
      db.products[a].sellerId != db.products[b].sellerId || db.products[a].name != db.products[b].name
  }

  /** Creating keeps the unique index. */
  lemma InsertKeepsUnique(db: Tables, products: seq<Product>)
    requires UniqueNames(db) && Insertable(db, products)
    ensures UniqueNames(Inserted(db, products))
  {
    var after := Inserted(db, products);
    InsertedOnly(db, products);
    forall a, b | a in after.products && b in after.products && a != b
      ensures after.products[a].sellerId != after.products[b].sellerId || after.products[a].name != after.products[b].name
    {
      if a !in db.products {
        var p :| p in products && p.id == a;
        InsertedRows(db, products, p);
        if b !in db.products {
          var q :| q in products && q.id == b;
          InsertedRows(db, products, q);
          NamesApart(db, products, p, q);
        }
      } else if b !in db.products {
        var q :| q in products && q.id == b;
        InsertedRows(db, products, q);
      }
    }
  }

  lemma NamesApart(db: Tables, products: seq<Product>, p: Product, q: Product)
    requires Insertable(db, products) && p in products && q in products && p.id != q.id
    ensures p.sellerId != q.sellerId || p.name != q.name
  {
    var i :| 0 <= i < |products| && products[i] == p;
    var j :| 0 <= j < |products| && products[j] == q;
    assert i < j || j < i;
  }

  /** Creating leaves what was stored and adds nothing but the batch. */
  lemma InsertedOnly(db: Tables, products: seq<Product>)
    requires Insertable(db, products)
    ensures var after := Inserted(db, products);
            && (forall id :: id in db.products ==> id in after.products && after.products[id] == db.products[id])
            && (forall sku :: sku in db.skus ==> sku in after.skus && after.skus[sku] == db.skus[sku])
            && (forall id :: id in after.products && id !in db.products ==> exists p :: p in products && p.id == id)
            && (forall sku :: sku in after.skus && sku !in db.skus ==> exists p, s :: p in products && s in p.skus && s.id == sku)
  {
    InsertableIds(db, products);
    InsertedFacts(db, products);
    forall id | id in ProductIds(products) ensures exists p :: p in products && p.id == id {
      var i :| 0 <= i < |products| && ProductIds(products)[i] == id;
      assert products[i] in products;
    }
    forall sku | sku in Inserted(db, products).skus && sku !in db.skus ensures exists p, s :: p in products && s in p.skus && s.id == sku {
      NewSku(db, products, sku);
    }
  }

  lemma {:induction false} NewSku(db: Tables, products: seq<Product>, sku: nat)
    requires sku in Inserted(db, products).skus && sku !in db.skus
    ensures exists p, s :: p in products && s in p.skus && s.id == sku
  {
    var n := |products| - 1;
    var last, before := products[n], Inserted(db, products[..n]);
    assert products == products[..n] + [last];
    InsertSkusFacts(before.skus, last.id, last.skus, sku);
    if sku in before.skus {
      NewSku(db, products[..n], sku);
    } else {
      var i :| 0 <= i < |last.skus| && SkuIds(last.skus)[i] == sku;
      assert last in products && last.skus[i] in last.skus;
    }
  }

  /** Updating distinct products and SKUs stores, column by column, what was asked
      for as far as the paths go, and leaves everything else. */
  lemma UpdatedRows(db: Tables, after: Tables, products: seq<Product>, paths: seq<string>)
    requires Applied(db, after, products, paths)
    requires NoDup(ProductIds(products)) && NoDup(SkuIds(Flatten(products)))
    ensures after.products.Keys == db.products.Keys && after.skus.Keys == db.skus.Keys
    ensures forall p :: p in products && p.id in db.products ==>
              var row := db.products[p.id];
              after.products[p.id] == ProductRow(if "product_name" in paths then p.name else row.name, row.sellerId, row.status)
    ensures forall p, s :: p in products && s in p.skus && s.id in db.skus ==>
              var row := db.skus[s.id];
              after.skus[s.id] == if "skus" in paths then SkuRow(row.productId, s.attrs, s.unitPrice) else row
    ensures forall id :: id in db.products && id !in ProductIds(products) ==> after.products[id] == db.products[id]
    ensures forall sku :: sku in db.skus && sku !in SkuIds(Flatten(products)) ==> after.skus[sku] == db.skus[sku]
  {
    forall p | p in products && p.id in db.products && NAME_PATH in paths
      ensures after.products[p.id] == db.products[p.id].(name := p.name)
    {
      var j :| 0 <= j < |products| && products[j] == p;
      AppliedName(db.products, after.products, ProductIds(products), Names(products), j);
    }
    forall p, s | p in products && s in p.skus && s.id in db.skus && SKUS_PATH in paths
      ensures after.skus[s.id] == db.skus[s.id].(attrs := s.attrs, unitPrice := s.unitPrice)
    {
      InFlatten(products, p, s);
      var j :| 0 <= j < |Flatten(products)| && Flatten(products)[j] == s;
      AppliedSku(db.skus, after.skus, Flatten(products), j);
    }
  }

  lemma AppliedName(before: map<nat, ProductRow>, after: map<nat, ProductRow>, ids: seq<nat>, names: seq<string>, j: nat)
    requires |ids| == |names| && NoDup(ids) && NamesApplied(before, after, ids, names)
    requires j < |ids| && ids[j] in before
    ensures after[ids[j]] == before[ids[j]].(name := names[j])
  {
  }

  lemma AppliedSku(before: map<nat, SkuRow>, after: map<nat, SkuRow>, skus: seq<Sku>, j: nat)
    requires NoDup(SkuIds(skus)) && SkusApplied(before, after, skus)
    requires j < |skus| && skus[j].id in before
    ensures after[skus[j].id] == before[skus[j].id].(attrs := skus[j].attrs, unitPrice := skus[j].unitPrice)
  {
    var k := skus[j].id;
    assert SkuIds(skus)[j] == k && k in SkuIds(skus);
    var i :| 0 <= i < |skus| && skus[i].id == k && after[k] == before[k].(attrs := skus[i].attrs, unitPrice := skus[i].unitPrice);
    assert SkuIds(skus)[i] == SkuIds(skus)[j];
  }

  /** The request names this product and SKU as they are stored already, as far as
      its paths go: nothing else may be said about them in any entry. */
  ghost predicate Restates(db: Tables, products: seq<Product>, paths: seq<string>, sku: nat)
    requires sku in db.skus && db.skus[sku].productId in db.products
  {
    var stored := db.skus[sku];
    && (NAME_PATH in paths ==>
          forall p :: p in products && p.id == stored.productId ==> p.name == db.products[p.id].name)
    && (SKUS_PATH in paths ==>
          forall p, s :: p in products && s in p.skus && s.id == sku ==> s.attrs == stored.attrs && s.unitPrice == stored.unitPrice)
  }

  /** The request says nothing new about a joined row of a seller it does not carry. */
  ghost predicate CarriesItsSellers(db: Tables, products: seq<Product>, paths: seq<string>) {
    forall sku, seller :: OfSeller(db, sku, seller) && 0 < db.skus[sku].productId && seller !in Sellers(products) ==>
      Restates(db, products, paths, sku)
  }

  /** A request that restates a row leaves it, whichever entries the database picks. */
  lemma RestatedRow(db: Tables, after: Tables, products: seq<Product>, paths: seq<string>, sku: nat)
    requires Applied(db, after, products, paths)
    requires sku in db.skus && db.skus[sku].productId in db.products && Restates(db, products, paths, sku)
    ensures sku in after.skus && after.skus[sku].productId in after.products
    ensures RowOf(after, sku) == RowOf(db, sku)
  {
    var id := db.skus[sku].productId;
    if NAME_PATH in paths && id in ProductIds(products) {
      var i :| 0 <= i < |products| && ProductIds(products)[i] == id && after.products[id] == db.products[id].(name := Names(products)[i]);
      assert products[i] in products;
    }
    if SKUS_PATH in paths && sku in SkuIds(Flatten(products)) {
      var skus := Flatten(products);
      var i :| 0 <= i < |skus| && skus[i].id == sku && after.skus[sku] == db.skus[sku].(attrs := skus[i].attrs, unitPrice := skus[i].unitPrice);
      FromSomeProduct(products, skus[i]);
    }
  }

  lemma CarriesMeansSame(db: Tables, after: Tables, products: seq<Product>, paths: seq<string>, seller: int)
    requires Applied(db, after, products, paths)
    requires CarriesItsSellers(db, products, paths) && seller !in Sellers(products)
    ensures SameListings(db, after, seller)
  {
    UpdateKeepsJoin(db, after, products, paths);
    forall sku | OfSeller(db, sku, seller) && 0 < db.skus[sku].productId ensures RowOf(after, sku) == RowOf(db, sku) {
      RestatedRow(db, after, products, paths, sku);
    }
    forall r: Row | 0 < r.id ensures r in JoinedRows(db, seller) <==> r in JoinedRows(after, seller) {
      if r in JoinedRows(db, seller) {
        var sku :| sku in db.skus && OfSeller(db, sku, seller) && RowOf(db, sku) == r;
        assert OfSeller(after, sku, seller) && RowOf(after, sku) == r;
      }
      if r in JoinedRows(after, seller) {
        var sku :| sku in after.skus && OfSeller(after, sku, seller) && RowOf(after, sku) == r;
        assert OfSeller(db, sku, seller);
      }
    }
  }

  ghost function RowHeading(rows: seq<Row>, id: nat): (r: Row)
    requires id in FirstSeen(rows)
    ensures exists i :: 0 <= i < |rows| && IsFirst(rows, i, id) && r == rows[i]
  {
    var n := |rows| - 1;
    if id in FirstSeen(rows[..n]) then
      var r := RowHeading(rows[..n], id);
      assert exists i :: 0 <= i < n && IsFirst(rows[..n], i, id) && r == rows[i];
      assert forall i :: 0 <= i < n && IsFirst(rows[..n], i, id) ==> IsFirst(rows, i, id);
      r
    else
      FirstSeenFacts(rows[..n]);
      assert forall j :: 0 <= j < n ==> rows[..n][j] in rows[..n];
      assert IsFirst(rows, n, id);
      rows[n]
  }

  lemma GroupingExists(seller: int, rows: seq<Row>) returns (products: seq<Product>)
    ensures IsGrouping(seller, rows, products)
  {
    var ids := FirstSeen(rows);
    products := [];
    for k := 0 to |ids|
      invariant ProductIds(products) == ids[..k]
      invariant forall p :: p in products ==> p.sellerId == seller && p.skus == SkusOf(rows, p.id) && HeadedBy(p, rows, |rows|)
    {
      var r := RowHeading(rows, ids[k]);
      products := products + [Product(ids[k], r.name, seller, r.status, SkusOf(rows, ids[k]))];
    }
  }

  /** A full listing of one seller, cached before the update. */
  lemma OneListing(db: Tables, seller: int) returns (products: seq<Product>, redis: Redis)
    ensures IsListing(db, seller, 0, -1, UNSPECIFIED, products)
    ensures Coherent(db, redis) && redis == Cached(map[], seller, ListKey(seller, 0, -1, UNSPECIFIED), products)
  {
    var rows := AnswerExists(JoinedRows(db, seller), 0, -1, UNSPECIFIED);
    products := GroupingExists(seller, rows);
    redis := Cached(map[], seller, ListKey(seller, 0, -1, UNSPECIFIED), products);
    CachedCoherent(db, map[], seller, 0, -1, UNSPECIFIED, products);
  }

  /** Whatever the statements of the update leave, a cache that was coherent is
      coherent once the carried sellers are cleared. */
  ghost predicate KeepsCoherence(db: Tables, products: seq<Product>, paths: seq<string>, setKeys: seq<string>) {
    forall redis, after :: Coherent(db, redis) && Applied(db, after, products, paths) ==> Coherent(after, Cleared(redis, setKeys))
  }

  /** A full listing of a seller that is not carried outlives the update. */
  lemma SurvivingListing(db: Tables, setKeys: seq<string>, sellers: seq<int>, seller: int) returns (listed: seq<Product>, redis: Redis)
    requires AreSetKeys(setKeys, sellers) && seller !in sellers
    ensures Coherent(db, redis) && IsListing(db, seller, 0, -1, UNSPECIFIED, listed)
    ensures var key := ListKey(seller, 0, -1, UNSPECIFIED);
            key in Cleared(redis, setKeys) && Cleared(redis, setKeys)[key] == Listed(listed)
  {
    listed, redis := OneListing(db, seller);
    ListKeyIsNoSetKey(seller, 0, -1, UNSPECIFIED, seller);
    NotCarried(setKeys, sellers, seller);
    ClearSellers(redis, setKeys);
  }

  /** If the survivor is still right, it shows each row of its seller unchanged. */
  lemma SurvivorShows(db: Tables, after: Tables, products: seq<Product>, paths: seq<string>, setKeys: seq<string>, sku: nat, seller: int)
    requires AreSetKeys(setKeys, Sellers(products)) && Applied(db, after, products, paths)
    requires OfSeller(db, sku, seller) && 0 < db.skus[sku].productId && seller !in Sellers(products)
    requires KeepsCoherence(db, products, paths, setKeys)
    ensures OfSeller(after, sku, seller) && RowOf(after, sku) == RowOf(db, sku)
  {
    UpdateKeepsJoin(db, after, products, paths);
    var listed, redis := SurvivingListing(db, setKeys, Sellers(products), seller);
    assert Coherent(after, Cleared(redis, setKeys));
    assert Fresh(after, Cleared(redis, setKeys), seller);
    var r := RowOf(after, sku);
    assert r in JoinedRows(after, seller);
    FullListing(after, seller, listed, r);
    FullListing(db, seller, listed, r);
    var sku' :| sku' in db.skus && OfSeller(db, sku', seller) && RowOf(db, sku') == r;
    assert sku' == sku;
  }

  lemma SwapName(before: map<nat, ProductRow>, after: map<nat, ProductRow>, ids: seq<nat>, names: seq<string>, i: nat)
    requires |ids| == |names| && i < |ids| && ids[i] in before && NamesApplied(before, after, ids, names)
    ensures NamesApplied(before, after[ids[i] := before[ids[i]].(name := names[i])], ids, names)
  {
  }

  lemma SwapSku(before: map<nat, SkuRow>, after: map<nat, SkuRow>, skus: seq<Sku>, i: nat)
    requires i < |skus| && skus[i].id in before && SkusApplied(before, after, skus)
    ensures var row := before[skus[i].id].(attrs := skus[i].attrs, unitPrice := skus[i].unitPrice);
            SkusApplied(before, after[skus[i].id := row], skus)
  {
    var row := before[skus[i].id].(attrs := skus[i].attrs, unitPrice := skus[i].unitPrice);
    var swapped := after[skus[i].id := row];
    assert SkuIds(skus)[i] == skus[i].id;
    forall k | k in before && k != skus[i].id ensures swapped[k] == after[k] {
    }
  }

  /** Each entry of the request may be the one that the database picks. */
  lemma NamePicked(db: Tables, products: seq<Product>, paths: seq<string>, p: Product) returns (after: Tables)
    requires NAME_PATH in paths && p in products && p.id in db.products
    ensures Applied(db, after, products, paths)
    ensures after.products[p.id].name == p.name
  {
    RowWiseApplied(db, products, paths);
    var rows := RowWise(db, products, paths);
    var i :| 0 <= i < |products| && products[i] == p;
    SwapName(db.products, rows.products, ProductIds(products), Names(products), i);
    after := rows.(products := rows.products[p.id := db.products[p.id].(name := p.name)]);
  }

  lemma SkuPicked(db: Tables, products: seq<Product>, paths: seq<string>, s: Sku) returns (after: Tables)
    requires SKUS_PATH in paths && s in Flatten(products) && s.id in db.skus
    ensures Applied(db, after, products, paths)
    ensures after.skus[s.id].attrs == s.attrs && after.skus[s.id].unitPrice == s.unitPrice
  {
    RowWiseApplied(db, products, paths);
    var rows := RowWise(db, products, paths);
    var i :| 0 <= i < |Flatten(products)| && Flatten(products)[i] == s;
    SwapSku(db.skus, rows.skus, Flatten(products), i);
    after := rows.(skus := rows.skus[s.id := db.skus[s.id].(attrs := s.attrs, unitPrice := s.unitPrice)]);
  }

  lemma {:induction false} InFlatten(products: seq<Product>, p: Product, s: Sku)
    requires p in products && s in p.skus
    ensures s in Flatten(products)
  {
    var n := |products| - 1;
    assert products == products[..n] + [products[n]];
    if p != products[n] {
      InFlatten(products[..n], p, s);
    }
  }

  lemma KeepsMeansRestates(db: Tables, products: seq<Product>, paths: seq<string>, setKeys: seq<string>, sku: nat, seller: int)
    requires AreSetKeys(setKeys, Sellers(products)) && KeepsCoherence(db, products, paths, setKeys)
    requires OfSeller(db, sku, seller) && 0 < db.skus[sku].productId && seller !in Sellers(products)
    ensures Restates(db, products, paths, sku)
  {
    forall p | NAME_PATH in paths && p in products && p.id == db.skus[sku].productId ensures p.name == db.products[p.id].name {
      var after := NamePicked(db, products, paths, p);
      SurvivorShows(db, after, products, paths, setKeys, sku, seller);
      UpdateKeepsJoin(db, after, products, paths);
    }
    forall p, s | SKUS_PATH in paths && p in products && s in p.skus && s.id == sku
      ensures s.attrs == db.skus[sku].attrs && s.unitPrice == db.skus[sku].unitPrice
    {
      InFlatten(products, p, s);
      var after := SkuPicked(db, products, paths, s);
      SurvivorShows(db, after, products, paths, setKeys, sku, seller);
    }
  }

  /** The update keeps every coherent cache coherent exactly when the request says
      nothing new about a joined row of a seller it does not carry. */
  lemma CoherentUpdateIff(db: Tables, products: seq<Product>, paths: seq<string>, setKeys: seq<string>)
    requires AreSetKeys(setKeys, Sellers(products))
    ensures KeepsCoherence(db, products, paths, setKeys) <==> CarriesItsSellers(db, products, paths)
  {
    if CarriesItsSellers(db, products, paths) {
      forall redis, after | Coherent(db, redis) && Applied(db, after, products, paths)
        ensures Coherent(after, Cleared(redis, setKeys))
      {
        forall s | s !in Sellers(products) ensures SameListings(db, after, s) {
          CarriesMeansSame(db, after, products, paths, s);
        }
        ClearedCoherent(db, after, redis, setKeys, Sellers(products));
      }
    }
    if KeepsCoherence(db, products, paths, setKeys) {
      forall sku, seller | OfSeller(db, sku, seller) && 0 < db.skus[sku].productId && seller !in Sellers(products)
        ensures Restates(db, products, paths, sku)
      {
        KeepsMeansRestates(db, products, paths, setKeys, sku, seller);
      }
    }
  }

  // ------------------------------------------------ a request that leaves it stale

  /** The cache holds a full listing of the seller. */
  ghost predicate HoldsFull(redis: Redis, seller: int) {
    Hit(redis, ListKey(seller, 0, -1, UNSPECIFIED))
  }

  lemma RowName(db: Tables, seller: int, r: Row)
    requires r in JoinedRows(db, seller)
    ensures r.id in db.products && r.name == db.products[r.id].name
  {
  }

  lemma FullSurvives(redis: Redis, setKeys: seq<string>, sellers: seq<int>, owner: int)
    requires Registered(redis) && HoldsFull(redis, owner)
    requires AreSetKeys(setKeys, sellers) && owner !in sellers
    ensures var key, after := ListKey(owner, 0, -1, UNSPECIFIED), Cleared(redis, setKeys);
            Hit(after, key) && after[key] == redis[key]
  {
    NotCarried(setKeys, sellers, owner);
    ClearSellers(redis, setKeys);
  }

  /** The listing shows a name that the table no longer has. */
  lemma OldNameShown(before: Tables, after: Tables, owner: int, sku: nat, listed: seq<Product>)
    requires IsListing(before, owner, 0, -1, UNSPECIFIED, listed)
    requires OfSeller(before, sku, owner) && 0 < before.skus[sku].productId
    requires before.skus[sku].productId in after.products
    requires before.products[before.skus[sku].productId].name != after.products[before.skus[sku].productId].name
    ensures !IsListing(after, owner, 0, -1, UNSPECIFIED, listed)
  {
    var r := RowOf(before, sku);
    assert r in JoinedRows(before, owner);
    FullListing(before, owner, listed, r);
    if r in JoinedRows(after, owner) {
      RowName(after, owner, r);
    }
    if IsListing(after, owner, 0, -1, UNSPECIFIED, listed) {
      FullListing(after, owner, listed, r);
    }
  }

  lemma Renamed(before: Tables, after: Tables, p: Product)
    requires Applied(before, after, [p], [NAME_PATH]) && p.id in before.products
    ensures p.id in after.products && after.products[p.id] == before.products[p.id].(name := p.name)
  {
    assert NAME_PATH in [NAME_PATH] && ProductIds([p])[0] == p.id;
  }

  /** A product of one seller is renamed by a request that carries another: the
      owner's cached listing outlives the update and is wrong from then on. */
  lemma RenameLeavesStale(a: Shop, b: Shop, p: Product, sku: nat, owner: int)
    requires Coherent(a.db, a.redis) && HoldsFull(a.redis, owner)
    requires Next(a, Update([p], [NAME_PATH]), b)
    requires p.sellerId != owner
    requires OfSeller(a.db, sku, owner) && a.db.skus[sku].productId == p.id && 0 < p.id
    requires a.db.products[p.id].name != p.name
    ensures var key := ListKey(owner, 0, -1, UNSPECIFIED);
            && Hit(b.redis, key) && b.redis[key] == a.redis[key]
            && !IsListing(b.db, owner, 0, -1, UNSPECIFIED, b.redis[key].products)
  {
    var setKeys :| AreSetKeys(setKeys, Sellers([p])) && b.redis == Cleared(a.redis, setKeys);
    FullSurvives(a.redis, setKeys, Sellers([p]), owner);
    assert Fresh(a.db, a.redis, owner);
    Renamed(a.db, b.db, p);
    OldNameShown(a.db, b.db, owner, sku, a.redis[ListKey(owner, 0, -1, UNSPECIFIED)].products);
  }
}
