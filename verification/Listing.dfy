/** Reading a seller's products: the joined rows, their grouping into products,
    and the pages a client walks through. */
module Listing {
  import opened Basics

  const UNSPECIFIED: string := "unspecified"

  datatype Sku = Sku(id: nat, productId: nat, attrs: string, unitPrice: string)

  datatype Product = Product(id: nat, name: string, sellerId: int, status: string, skus: seq<Sku>)

  /** A product joined with one of its SKUs. */
  datatype Row = Row(id: nat, name: string, status: string, skuId: nat, attrs: string, unitPrice: string)
  {
    function ToSku(): Sku {
      Sku(skuId, id, attrs, unitPrice)
    }
  }

  // ---------------------------------------------------------------- grouping

  /** The product ids of `rows` in the order they are first seen. */
  function FirstSeen(rows: seq<Row>): seq<nat> {
    if rows == [] then []
    else
      var n := |rows| - 1;
      var before := FirstSeen(rows[..n]);
      if rows[n].id in before then before else before + [rows[n].id]
  }

  /** The SKUs of one product, in row order. */
  function SkusOf(rows: seq<Row>, id: nat): seq<Sku> {
    if rows == [] then []
    else
      var n := |rows| - 1;
      SkusOf(rows[..n], id) + if rows[n].id == id then [rows[n].ToSku()] else []
  }

  function Skus(rows: seq<Row>): (skus: seq<Sku>)
    ensures |skus| == |rows|
  {
    seq(|rows|, i requires 0 <= i < |rows| => rows[i].ToSku())
  }

  /** `products` groups `rows`: ids in first-seen order, the SKUs of each product in
      row order, and name and status from the product's first row. */
  ghost predicate IsGrouping(sellerId: int, rows: seq<Row>, products: seq<Product>) {
    && ProductIds(products) == FirstSeen(rows)
    && forall p :: p in products ==>
         && p.sellerId == sellerId
         && p.skus == SkusOf(rows, p.id)
         && exists i :: 0 <= i < |rows| && IsFirst(rows, i, p.id) && p.name == rows[i].name && p.status == rows[i].status
  }

  ghost predicate IsFirst(rows: seq<Row>, i: nat, id: nat)
    requires i < |rows|
  {
    rows[i].id == id && forall j :: 0 <= j < i ==> rows[j].id != id
  }

  function ProductIds(products: seq<Product>): (ids: seq<nat>)
    ensures |ids| == |products|
  {
    seq(|products|, i requires 0 <= i < |products| => products[i].id)
  }

  lemma {:induction false} FirstSeenFacts(rows: seq<Row>)
    ensures NoDup(FirstSeen(rows))
    ensures forall id :: id in FirstSeen(rows) <==> exists r :: r in rows && r.id == id
  {
    if rows != [] {
      var n := |rows| - 1;
      FirstSeenFacts(rows[..n]);
      assert rows == rows[..n] + [rows[n]];
      assert forall r :: r in rows <==> r in rows[..n] || r == rows[n];
    }
  }

  lemma {:induction false} SeenAt(rows: seq<Row>, id: nat) returns (i: nat)
    requires id in FirstSeen(rows)
    ensures i < |rows| && rows[i].id == id
  {
    i := |rows| - 1;
    if rows[i].id != id {
      i := SeenAt(rows[..i], id);
    }
  }

  lemma {:induction false} NoSkus(rows: seq<Row>, id: nat)
    requires forall r :: r in rows ==> r.id != id
    ensures SkusOf(rows, id) == []
  {
    if rows != [] {
      assert rows[|rows| - 1] in rows;
      NoSkus(rows[..|rows| - 1], id);
    }
  }

  /** The SKUs of a product are those of its rows, column by column. */
  lemma {:induction false} SkusOfRows(rows: seq<Row>, id: nat)
    ensures forall s :: s in SkusOf(rows, id) <==>
              exists r :: r in rows && r.id == id && s == Sku(r.skuId, r.id, r.attrs, r.unitPrice)
  {
    if rows != [] {
      var n := |rows| - 1;
      assert rows == rows[..n] + [rows[n]];
      SkusOfRows(rows[..n], id);
      forall s | s in SkusOf(rows, id) ensures exists r :: r in rows && r.id == id && s == Sku(r.skuId, r.id, r.attrs, r.unitPrice) {
        if s in SkusOf(rows[..n], id) {
          var r :| r in rows[..n] && r.id == id && s == Sku(r.skuId, r.id, r.attrs, r.unitPrice);
          assert r in rows;
        } else {
          assert rows[n] in rows;
        }
      }
    }
  }

  /** Name and status of `p` come from the first of the leading `k` rows with its id. */
  ghost predicate HeadedBy(p: Product, rows: seq<Row>, k: nat)
    requires k <= |rows|
  {
    exists i :: 0 <= i < k && IsFirst(rows, i, p.id) && p.name == rows[i].name && p.status == rows[i].status
  }

  /** What the first loop has built from the leading `k` rows. */
  ghost predicate Collected(sellerId: int, rows: seq<Row>, k: nat, products: seq<Product>, m: map<nat, seq<Sku>>)
    requires k <= |rows|
  {
    && ProductIds(products) == FirstSeen(rows[..k])
    && (forall id :: id in m <==> id in FirstSeen(rows[..k]))
    && (forall id :: id in m ==> m[id] == SkusOf(rows[..k], id))
    && (forall p :: p in products ==> p.sellerId == sellerId && HeadedBy(p, rows, k))
  }

  lemma CollectSeen(sellerId: int, rows: seq<Row>, k: nat, products: seq<Product>, m: map<nat, seq<Sku>>)
    requires k < |rows| && Collected(sellerId, rows, k, products, m)
    requires rows[k].id in m
    ensures Collected(sellerId, rows, k + 1, products, m[rows[k].id := m[rows[k].id] + [rows[k].ToSku()]])
  {
    StepGroup(rows, k);
  }

  lemma CollectNew(sellerId: int, rows: seq<Row>, k: nat, products: seq<Product>, m: map<nat, seq<Sku>>)
    requires k < |rows| && Collected(sellerId, rows, k, products, m)
    requires rows[k].id !in m
    ensures var row := rows[k];
            Collected(sellerId, rows, k + 1, products + [Product(row.id, row.name, sellerId, row.status, [])],
                      m[row.id := [row.ToSku()]])
  {
    var row := rows[k];
    var p := Product(row.id, row.name, sellerId, row.status, []);
    StepGroup(rows, k);
    FirstSeenFacts(rows[..k]);
    forall j | 0 <= j < k ensures rows[j].id != row.id {
      assert rows[..k][j] in rows[..k];
    }
    NoSkus(rows[..k], row.id);
    assert IsFirst(rows, k, row.id) && HeadedBy(p, rows, k + 1);
    assert ProductIds(products + [p]) == ProductIds(products) + [row.id];
  }

  method ConvertToBizProducts(sellerId: int, rows: seq<Row>) returns (products: seq<Product>)
    ensures IsGrouping(sellerId, rows, products)
  {
    var m: map<nat, seq<Sku>> := map[];
    products := [];
    for k := 0 to |rows|
      invariant Collected(sellerId, rows, k, products, m)
    {
      var row := rows[k];
      if row.id in m {
        CollectSeen(sellerId, rows, k, products, m);
        m := m[row.id := m[row.id] + [row.ToSku()]];
      } else {
        CollectNew(sellerId, rows, k, products, m);
        products := products + [Product(row.id, row.name, sellerId, row.status, [])];
        m := m[row.id := [row.ToSku()]];
      }
    }
    assert rows[..|rows|] == rows;
    ghost var headed := products;
    for k := 0 to |products|
      invariant |products| == |headed|
      invariant forall i :: 0 <= i < k ==> products[i] == headed[i].(skus := SkusOf(rows, headed[i].id))
      invariant forall i :: k <= i < |products| ==> products[i] == headed[i]
    {
      assert ProductIds(headed)[k] == products[k].id;
      products := products[k := products[k].(skus := m[products[k].id])];
    }
    assert ProductIds(products) == ProductIds(headed);
    forall p | p in products ensures p.sellerId == sellerId && p.skus == SkusOf(rows, p.id) && HeadedBy(p, rows, |rows|) {
      var i :| 0 <= i < |products| && products[i] == p;
      assert headed[i] in headed;
    }
  }

  lemma StepGroup(rows: seq<Row>, k: nat)
    requires k < |rows|
    ensures FirstSeen(rows[..k + 1]) == FirstSeen(rows[..k]) + if rows[k].id in FirstSeen(rows[..k]) then [] else [rows[k].id]
    ensures forall id :: SkusOf(rows[..k + 1], id) == SkusOf(rows[..k], id) + if rows[k].id == id then [rows[k].ToSku()] else []
  {
    assert rows[..k + 1][..k] == rows[..k];
  }

  /** All SKUs of the products, in order. */
  ghost function Flatten(products: seq<Product>): seq<Sku> {
    if products == [] then [] else Flatten(products[..|products| - 1]) + products[|products| - 1].skus
  }

  /** All SKUs that grouping hands out for the given ids, in order. */
  ghost function Handed(rows: seq<Row>, ids: seq<nat>): seq<Sku> {
    if ids == [] then [] else Handed(rows, ids[..|ids| - 1]) + SkusOf(rows, ids[|ids| - 1])
  }

  lemma {:induction false} FlattenIsHanded(rows: seq<Row>, products: seq<Product>)
    requires forall p :: p in products ==> p.skus == SkusOf(rows, p.id)
    ensures Flatten(products) == Handed(rows, ProductIds(products))
  {
    if products != [] {
      var n := |products| - 1;
      assert products[n] in products;
      assert ProductIds(products)[..n] == ProductIds(products[..n]);
      FlattenIsHanded(rows, products[..n]);
    }
  }

  lemma SkusSnoc(rows: seq<Row>, r: Row, id: nat)
    ensures SkusOf(rows + [r], id) == SkusOf(rows, id) + if r.id == id then [r.ToSku()] else []
  {
    assert (rows + [r])[..|rows|] == rows;
  }

  lemma {:induction false} HandedElsewhere(rows: seq<Row>, r: Row, ids: seq<nat>)
    requires r.id !in ids
    ensures Handed(rows + [r], ids) == Handed(rows, ids)
  {
    if ids != [] {
      SkusSnoc(rows, r, ids[|ids| - 1]);
      HandedElsewhere(rows, r, ids[..|ids| - 1]);
    }
  }

  lemma HandedLast(rows: seq<Row>, r: Row, ids: seq<nat>)
    requires NoDup(ids) && ids != [] && r.id == ids[|ids| - 1]
    ensures Handed(rows + [r], ids) == Handed(rows, ids) + [r.ToSku()]
  {
    SkusSnoc(rows, r, r.id);
    HandedElsewhere(rows, r, ids[..|ids| - 1]);
  }

  lemma {:induction false} HandedOnce(rows: seq<Row>, r: Row, ids: seq<nat>)
    requires NoDup(ids) && r.id in ids
    ensures multiset(Handed(rows + [r], ids)) == multiset(Handed(rows, ids)) + multiset{r.ToSku()}
  {
    if r.id == ids[|ids| - 1] {
      HandedLast(rows, r, ids);
    } else {
      SkusSnoc(rows, r, ids[|ids| - 1]);
      assert ids == ids[..|ids| - 1] + [ids[|ids| - 1]];
      HandedOnce(rows, r, ids[..|ids| - 1]);
    }
  }

  /** Equal product ids stand next to each other. */
  ghost predicate Contiguous(rows: seq<Row>) {
    forall i, j, k :: 0 <= i < j < k < |rows| && rows[i].id == rows[k].id ==> rows[j].id == rows[i].id
  }

  lemma ContiguousFront(rows: seq<Row>)
    requires rows != [] && Contiguous(rows)
    ensures Contiguous(rows[..|rows| - 1])
  {
    var front := rows[..|rows| - 1];
    forall i, j, k | 0 <= i < j < k < |front| && front[i].id == front[k].id ensures front[j].id == front[i].id {
      assert rows[i].id == rows[k].id;
    }
  }

  /** In contiguous rows a row whose id was seen before belongs to the latest product. */
  lemma {:induction false} LatestProduct(rows: seq<Row>)
    requires rows != [] && Contiguous(rows)
    ensures FirstSeen(rows) != [] && FirstSeen(rows)[|FirstSeen(rows)| - 1] == rows[|rows| - 1].id
  {
    var n := |rows| - 1;
    if rows[n].id in FirstSeen(rows[..n]) {
      var i := SeenAt(rows[..n], rows[n].id);
      assert rows[i].id == rows[n].id;
      assert rows[n - 1].id == rows[n].id;
      ContiguousFront(rows);
      LatestProduct(rows[..n]);
    }
  }

  /** The first row of a product starts a list of its own. */
  lemma HandedNew(front: seq<Row>, r: Row)
    requires r.id !in FirstSeen(front)
    ensures Handed(front + [r], FirstSeen(front) + [r.id]) == Handed(front, FirstSeen(front)) + [r.ToSku()]
  {
    var seen := FirstSeen(front);
    FirstSeenFacts(front);
    forall q | q in front ensures q.id != r.id {
      assert q.id in seen;
    }
    NoSkus(front, r.id);
    SkusSnoc(front, r, r.id);
    HandedElsewhere(front, r, seen);
    assert (seen + [r.id])[..|seen|] == seen;
  }

  lemma FrontAndLast(rows: seq<Row>)
    requires rows != []
    ensures var n := |rows| - 1;
            && rows == rows[..n] + [rows[n]]
            && Skus(rows) == Skus(rows[..n]) + [rows[n].ToSku()]
  {
  }

  /** Nothing is lost or repeated. */
  lemma {:induction false} HandedAll(rows: seq<Row>)
    ensures multiset(Handed(rows, FirstSeen(rows))) == multiset(Skus(rows))
  {
    if rows != [] {
      var n := |rows| - 1;
      FrontAndLast(rows);
      HandedAll(rows[..n]);
      FirstSeenFacts(rows[..n]);
      if rows[n].id in FirstSeen(rows[..n]) {
        HandedOnce(rows[..n], rows[n], FirstSeen(rows[..n]));
      } else {
        HandedNew(rows[..n], rows[n]);
      }
    }
  }

  /** Where equal ids are contiguous, the SKU lists one after the other are the rows. */
  lemma {:induction false} HandedInOrder(rows: seq<Row>)
    requires Contiguous(rows)
    ensures Handed(rows, FirstSeen(rows)) == Skus(rows)
  {
    if rows != [] {
      var n := |rows| - 1;
      FrontAndLast(rows);
      ContiguousFront(rows);
      HandedInOrder(rows[..n]);
      FirstSeenFacts(rows[..n]);
      if rows[n].id in FirstSeen(rows[..n]) {
        LatestProduct(rows);
        HandedLast(rows[..n], rows[n], FirstSeen(rows[..n]));
      } else {
        HandedNew(rows[..n], rows[n]);
      }
    }
  }

  /** Grouping is a stable partition of the rows. */
  lemma GroupingPartitions(sellerId: int, rows: seq<Row>, products: seq<Product>)
    requires IsGrouping(sellerId, rows, products)
    ensures NoDup(ProductIds(products))
    ensures forall id :: id in ProductIds(products) <==> exists r :: r in rows && r.id == id
    ensures multiset(Flatten(products)) == multiset(Skus(rows))
    ensures Contiguous(rows) ==> Flatten(products) == Skus(rows)
  {
    FirstSeenFacts(rows);
    FlattenIsHanded(rows, products);
    HandedAll(rows);
    if Contiguous(rows) {
      HandedInOrder(rows);
    }
  }

  /** Two groupings of the same rows are the same list. */
  lemma GroupingUnique(sellerId: int, rows: seq<Row>, a: seq<Product>, b: seq<Product>)
    requires IsGrouping(sellerId, rows, a) && IsGrouping(sellerId, rows, b)
    ensures a == b
  {
    forall k | 0 <= k < |a| ensures |b| == |a| && a[k] == b[k] {
      assert ProductIds(a)[k] == ProductIds(b)[k];
      assert a[k] in a && b[k] in b;
      var i :| 0 <= i < |rows| && IsFirst(rows, i, a[k].id) && a[k].name == rows[i].name && a[k].status == rows[i].status;
      var j :| 0 <= j < |rows| && IsFirst(rows, j, b[k].id) && b[k].name == rows[j].name && b[k].status == rows[j].status;
      assert i == j;
    }
    assert |ProductIds(a)| == |ProductIds(b)|;
  }

  // ------------------------------------------------------------- page answers

  predicate Matches(r: Row, pageToken: nat, status: string) {
    pageToken < r.id && (status == UNSPECIFIED || r.status == status)
  }

  /** `answer` is an answer the database may give to the listing query over the
      joined rows `all`: ordered by product id only, cut at `pageSize` joined rows,
      not cut at all if that is negative. */
  predicate IsAnswer(all: set<Row>, pageToken: nat, pageSize: int, status: string, answer: seq<Row>) {
    && NoDup(answer)
    && (forall r :: r in answer ==> r in all && Matches(r, pageToken, status))
    && (forall i, j :: 0 <= i < j < |answer| ==> answer[i].id <= answer[j].id)
    && (0 <= pageSize ==> |answer| <= pageSize)
    && (forall r :: r in all && Matches(r, pageToken, status) && r !in answer ==>
          |answer| == pageSize && forall q :: q in answer ==> q.id <= r.id)
  }

  lemma {:induction false} LeastRow(rows: set<Row>) returns (least: Row)
    requires rows != {}
    ensures least in rows && forall r :: r in rows ==> least.id <= r.id
    decreases |rows|
  {
    least :| least in rows;
    assert forall r :: r in rows ==> r == least || r in rows - {least};
    if rows - {least} != {} {
      var other := LeastRow(rows - {least});
      if other.id < least.id {
        least := other;
      }
    }
  }

  /** The query always has an answer. */
  lemma {:induction false} AnswerExists(all: set<Row>, pageToken: nat, pageSize: int, status: string) returns (answer: seq<Row>)
    ensures IsAnswer(all, pageToken, pageSize, status, answer)
    decreases |all|
  {
    var matching := set r | r in all && Matches(r, pageToken, status);
    assert forall r :: r in all && Matches(r, pageToken, status) ==> r in matching;
    if matching == {} || pageSize == 0 {
      answer := [];
    } else {
      var first := LeastRow(matching);
      var rest := AnswerExists(all - {first}, pageToken, pageSize - 1, status);
      if pageSize < 0 {
        rest := AnswerExists(all - {first}, pageToken, pageSize, status);
      }
      answer := [first] + rest;
      assert forall r :: r in answer <==> r == first || r in rest;
      assert NoDup(answer) by {
        assert first !in rest;
      }
      forall r | r in rest ensures first.id <= r.id {
        assert r in matching;
      }
    }
  }

  /** Every page comes grouped in row order. */
  lemma AnswerInOrder(all: set<Row>, pageToken: nat, pageSize: int, status: string, answer: seq<Row>, sellerId: int, products: seq<Product>)
    requires IsAnswer(all, pageToken, pageSize, status, answer)
    requires IsGrouping(sellerId, answer, products)
    ensures Flatten(products) == Skus(answer)
  {
    forall i, j, k | 0 <= i < j < k < |answer| && answer[i].id == answer[k].id ensures answer[j].id == answer[i].id {
    }
    GroupingPartitions(sellerId, answer, products);
  }

  /** Only the last product of a full page can be short of SKUs: if a page shows
      the row `q`, it shows every matching row `r` of the same product, too, or it is
      full and ends with that product. */
  lemma OnlyLastCut(all: set<Row>, pageToken: nat, pageSize: int, status: string, answer: seq<Row>, q: Row, r: Row)
    requires IsAnswer(all, pageToken, pageSize, status, answer)
    requires q in answer
    requires r in all && Matches(r, pageToken, status) && r.id == q.id
    ensures r in answer || (|answer| == pageSize && r.id == answer[|answer| - 1].id)
  {
    if r !in answer {
      var i :| 0 <= i < |answer| && answer[i] == q;
      var last := answer[|answer| - 1];
      assert last in answer;
    }
  }

  // ------------------------------------------------------------- whole walks

  /** A client follows the pages on a fixed table until an empty page, passing the
      last product id of each page as the next token. */
  ghost predicate IsWalk(all: set<Row>, pageToken: nat, pageSize: int, status: string, pages: seq<seq<Row>>)
    decreases |pages|
  {
    && pages != []
    && IsAnswer(all, pageToken, pageSize, status, pages[0])
    && if pages[0] == [] then |pages| == 1
       else IsWalk(all, pages[0][|pages[0]| - 1].id, pageSize, status, pages[1..])
  }

  /** The products of all pages, page after page. */
  ghost function Walked(pages: seq<seq<Row>>): seq<nat> {
    if pages == [] then [] else FirstSeen(pages[0]) + Walked(pages[1..])
  }

  ghost predicate Increasing(ids: seq<nat>) {
    forall i, j :: 0 <= i < j < |ids| ==> ids[i] < ids[j]
  }

  lemma {:induction false} SortedFirstSeen(rows: seq<Row>)
    requires forall i, j :: 0 <= i < j < |rows| ==> rows[i].id <= rows[j].id
    ensures Increasing(FirstSeen(rows))
  {
    if rows != [] {
      var n := |rows| - 1;
      var before := FirstSeen(rows[..n]);
      SortedFirstSeen(rows[..n]);
      FirstSeenFacts(rows[..n]);
      if rows[n].id !in before {
        forall id | id in before ensures id < rows[n].id {
          var r :| r in rows[..n] && r.id == id;
          var i :| 0 <= i < n && rows[..n][i] == r;
          assert rows[i].id <= rows[n].id;
        }
        assert forall i :: 0 <= i < |before| ==> before[i] in before;
      }
    }
  }

  /** Which products a page shows: all matching ones up to its last product, and
      all of them if it is empty. */
  lemma PageShows(all: set<Row>, pageToken: nat, pageSize: int, status: string, answer: seq<Row>)
    requires IsAnswer(all, pageToken, pageSize, status, answer) && pageSize != 0
    ensures forall id :: id in FirstSeen(answer) <==>
              exists r :: r in all && Matches(r, pageToken, status) && r.id == id && answer != [] && r.id <= answer[|answer| - 1].id
    ensures answer == [] ==> forall r :: r in all ==> !Matches(r, pageToken, status)
  {
    FirstSeenFacts(answer);
    forall id | id in FirstSeen(answer)
      ensures exists r :: r in all && Matches(r, pageToken, status) && r.id == id && answer != [] && r.id <= answer[|answer| - 1].id
    {
      var r :| r in answer && r.id == id;
      var i :| 0 <= i < |answer| && answer[i] == r;
    }
    forall r | r in all && Matches(r, pageToken, status) && answer != [] && r.id <= answer[|answer| - 1].id
      ensures r.id in FirstSeen(answer)
    {
      var last := answer[|answer| - 1];
      assert last in answer;
      if r !in answer {
        assert last.id <= r.id;
      }
    }
  }

  lemma {:induction false} WalkShows(all: set<Row>, pageToken: nat, pageSize: int, status: string, pages: seq<seq<Row>>)
    requires IsWalk(all, pageToken, pageSize, status, pages) && pageSize != 0
    ensures Increasing(Walked(pages))
    ensures forall id :: id in Walked(pages) <==>
              exists r :: r in all && Matches(r, pageToken, status) && r.id == id
    ensures |pages| <= |Walked(pages)| + 1
    decreases |pages|
  {
    var page := pages[0];
    PageShows(all, pageToken, pageSize, status, page);
    FirstSeenFacts(page);
    if page == [] {
      assert pages[1..] == [];
    } else {
      var last := page[|page| - 1].id;
      assert page[|page| - 1] in page && last in FirstSeen(page);
      WalkShows(all, last, pageSize, status, pages[1..]);
      SortedFirstSeen(page);
      JoinIncreasing(FirstSeen(page), Walked(pages[1..]), last);
    }
  }

  /** With a page size of at least one row (or none at all), following the pages on
      a fixed table shows every matching product that has a SKU exactly once, in
      increasing id order, in at most one page more than there are products. */
  lemma WalkComplete(all: set<Row>, pageToken: nat, pageSize: int, status: string, pages: seq<seq<Row>>)
    requires IsWalk(all, pageToken, pageSize, status, pages) && pageSize != 0
    ensures Increasing(Walked(pages))
    ensures forall id :: id in Walked(pages) <==>
              exists r :: r in all && r.id == id && pageToken < r.id && (status == "unspecified" || r.status == status)
    ensures |pages| <= |Walked(pages)| + 1
  {
    WalkShows(all, pageToken, pageSize, status, pages);
    forall id ensures id in Walked(pages) <==>
                exists r :: r in all && r.id == id && pageToken < r.id && (status == "unspecified" || r.status == status)
    {
      if id in Walked(pages) {
        var r :| r in all && Matches(r, pageToken, status) && r.id == id;
      }
    }
  }

  lemma JoinIncreasing(a: seq<nat>, b: seq<nat>, middle: nat)
    requires Increasing(a) && Increasing(b)
    requires forall x :: x in a ==> x <= middle
    requires forall x :: x in b ==> middle < x
    ensures Increasing(a + b)
  {
    var s := a + b;
    forall i, j | 0 <= i < j < |s| ensures s[i] < s[j] {
      if i < |a| <= j {
        assert a[i] in a && b[j - |a|] in b;
      }
    }
  }
}
