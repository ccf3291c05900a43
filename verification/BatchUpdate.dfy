/** The product tables and the column-wise batch update. */
module BatchUpdate {
  import opened Basics
  import opened Listing

  datatype ProductRow = ProductRow(name: string, sellerId: int, status: string)

  datatype SkuRow = SkuRow(productId: nat, attrs: string, unitPrice: string)

  datatype Tables = Tables(products: map<nat, ProductRow>, skus: map<nat, SkuRow>)

  const NAME_PATH: string := "product_name"
  const SKUS_PATH: string := "skus"

  // ------------------------------------------------------------ row by row

  function UpdateName(t: map<nat, ProductRow>, p: Product): map<nat, ProductRow> {
    if p.id in t then t[p.id := t[p.id].(name := p.name)] else t
  }

  function UpdateSku(t: map<nat, SkuRow>, s: Sku): map<nat, SkuRow> {
    if s.id in t then t[s.id := t[s.id].(attrs := s.attrs, unitPrice := s.unitPrice)] else t
  }

  ghost function UpdateNames(t: map<nat, ProductRow>, products: seq<Product>): map<nat, ProductRow> {
    if products == [] then t else UpdateName(UpdateNames(t, products[..|products| - 1]), products[|products| - 1])
  }

  ghost function UpdateSkus(t: map<nat, SkuRow>, skus: seq<Sku>): map<nat, SkuRow> {
    if skus == [] then t else UpdateSku(UpdateSkus(t, skus[..|skus| - 1]), skus[|skus| - 1])
  }

  /** Update each product and then each of its SKUs, one row at a time. */
  ghost function RowWise(t: Tables, products: seq<Product>, paths: seq<string>): Tables {
    if products == [] then t
    else
      var before := RowWise(t, products[..|products| - 1], paths);
      var p := products[|products| - 1];
      Tables(if NAME_PATH in paths then UpdateName(before.products, p) else before.products,
             if SKUS_PATH in paths then UpdateSkus(before.skus, p.skus) else before.skus)
  }

  lemma {:induction false} UpdateSkusAppend(t: map<nat, SkuRow>, a: seq<Sku>, b: seq<Sku>)
    ensures UpdateSkus(t, a + b) == UpdateSkus(UpdateSkus(t, a), b)
  {
    if b == [] {
      assert a + b == a;
    } else {
      assert (a + b)[..|a + b| - 1] == a + b[..|b| - 1];
      UpdateSkusAppend(t, a, b[..|b| - 1]);
    }
  }

  lemma {:induction false} RowWiseTables(t: Tables, products: seq<Product>, paths: seq<string>)
    ensures RowWise(t, products, paths).products == if NAME_PATH in paths then UpdateNames(t.products, products) else t.products
    ensures RowWise(t, products, paths).skus == if SKUS_PATH in paths then UpdateSkus(t.skus, Flatten(products)) else t.skus
  {
    if products != [] {
      var n := |products| - 1;
      RowWiseTables(t, products[..n], paths);
      UpdateSkusAppend(t.skus, Flatten(products[..n]), products[n].skus);
    }
  }

  // ------------------------------------------------------------- by columns

  datatype Columns = Columns(
    ids: seq<nat>,
    names: seq<string>,
    skuIds: seq<nat>,
    attrs: seq<string>,
    unitPrices: seq<string>
  )

  function Names(products: seq<Product>): (names: seq<string>)
    ensures |names| == |products|
  {
    seq(|products|, i requires 0 <= i < |products| => products[i].name)
  }

  function SkuIds(skus: seq<Sku>): (ids: seq<nat>)
    ensures |ids| == |skus|
  {
    seq(|skus|, i requires 0 <= i < |skus| => skus[i].id)
  }

  function Attrs(skus: seq<Sku>): (attrs: seq<string>)
    ensures |attrs| == |skus|
  {
    seq(|skus|, i requires 0 <= i < |skus| => skus[i].attrs)
  }

  function Prices(skus: seq<Sku>): (prices: seq<string>)
    ensures |prices| == |skus|
  {
    seq(|skus|, i requires 0 <= i < |skus| => skus[i].unitPrice)
  }

  /** The columns stay aligned: one id per product, one name per id or no names at
      all, and the SKU columns are the flattened SKUs or nothing. */
  ghost predicate Aligned(c: Columns, products: seq<Product>, paths: seq<string>) {
    var skus := if SKUS_PATH in paths then Flatten(products) else [];
    && c.ids == ProductIds(products)
    && c.names == (if NAME_PATH in paths then Names(products) else [])
    && c.skuIds == SkuIds(skus) && c.attrs == Attrs(skus) && c.unitPrices == Prices(skus)
  }

  predicate LacksSkus(products: seq<Product>, paths: seq<string>) {
    SKUS_PATH in paths && exists p :: p in products && p.skus == []
  }

  lemma NextProduct(products: seq<Product>, k: nat)
    requires k < |products|
    ensures ProductIds(products[..k + 1]) == ProductIds(products[..k]) + [products[k].id]
    ensures Names(products[..k + 1]) == Names(products[..k]) + [products[k].name]
    ensures Flatten(products[..k + 1]) == Flatten(products[..k]) + products[k].skus
  {
    assert products[..k + 1][..k] == products[..k];
  }

  lemma ColumnsAppend(a: seq<Sku>, b: seq<Sku>)
    ensures SkuIds(a + b) == SkuIds(a) + SkuIds(b)
    ensures Attrs(a + b) == Attrs(a) + Attrs(b)
    ensures Prices(a + b) == Prices(a) + Prices(b)
  {
  }

  method SkuColumns(skus: seq<Sku>) returns (ids: seq<nat>, attrs: seq<string>, prices: seq<string>)
    ensures ids == SkuIds(skus) && attrs == Attrs(skus) && prices == Prices(skus)
  {
    ids, attrs, prices := [], [], [];
    for j := 0 to |skus|
      invariant ids == SkuIds(skus)[..j] && attrs == Attrs(skus)[..j] && prices == Prices(skus)[..j]
    {
      ids, attrs, prices := ids + [skus[j].id], attrs + [skus[j].attrs], prices + [skus[j].unitPrice];
    }
  }

  /** The columns of one product, in whatever order the paths come. */
  method ProductColumns(p: Product, paths: seq<string>) returns (err: bool, names: seq<string>, skus: Columns)
    ensures err <==> SKUS_PATH in paths && p.skus == []
    ensures !err && NoDup(paths) ==> names == if NAME_PATH in paths then [p.name] else []
    ensures !err && NoDup(paths) ==>
              var given := if SKUS_PATH in paths then p.skus else [];
              skus == Columns([], [], SkuIds(given), Attrs(given), Prices(given))
  {
    names, skus := [], Columns([], [], [], [], []);
    for j := 0 to |paths|
      invariant SKUS_PATH in paths[..j] ==> p.skus != []
      invariant NoDup(paths) ==> names == if NAME_PATH in paths[..j] then [p.name] else []
      invariant NoDup(paths) ==>
                  var given := if SKUS_PATH in paths[..j] then p.skus else [];
                  skus == Columns([], [], SkuIds(given), Attrs(given), Prices(given))
    {
      assert paths[..j + 1] == paths[..j] + [paths[j]];
      if paths[j] == NAME_PATH {
        names := names + [p.name];
      } else if paths[j] == SKUS_PATH {
        if |p.skus| == 0 {
          return true, names, skus;
        }
        var ids, attrs, prices := SkuColumns(p.skus);
        skus := Columns([], [], skus.skuIds + ids, skus.attrs + attrs, skus.unitPrices + prices);
      }
    }
    assert paths[..|paths|] == paths;
    return false, names, skus;
  }

  method BuildColumns(products: seq<Product>, paths: seq<string>) returns (err: bool, c: Columns)
    ensures err <==> LacksSkus(products, paths)
    ensures !err && NoDup(paths) ==> Aligned(c, products, paths)
  {
    c := Columns([], [], [], [], []);
    for k := 0 to |products|
      invariant forall i :: 0 <= i < k ==> !(SKUS_PATH in paths && products[i].skus == [])
      invariant NoDup(paths) ==> Aligned(c, products[..k], paths)
    {
      var failed, names, skus := ProductColumns(products[k], paths);
      if failed {
        assert products[k] in products;
        return true, c;
      }
      NextProduct(products, k);
      ColumnsAppend(Flatten(products[..k]), products[k].skus);
      c := Columns(c.ids + [products[k].id], c.names + names,
                   c.skuIds + skus.skuIds, c.attrs + skus.attrs, c.unitPrices + skus.unitPrices);
    }
    assert products[..|products|] == products;
    return false, c;
  }

  /** UPDATE ... FROM (VALUES ...): each row takes the values of some entry with its
      id; which one is open if the id is listed twice. */
  predicate NamesApplied(before: map<nat, ProductRow>, after: map<nat, ProductRow>, ids: seq<nat>, names: seq<string>)
    requires |ids| == |names|
  {
    && after.Keys == before.Keys
    && forall k :: k in before ==>
         if k in ids then exists i :: 0 <= i < |ids| && ids[i] == k && after[k] == before[k].(name := names[i])
         else after[k] == before[k]
  }

  ghost predicate SkusApplied(before: map<nat, SkuRow>, after: map<nat, SkuRow>, skus: seq<Sku>) {
    && after.Keys == before.Keys
    && forall k :: k in before ==>
         if k in SkuIds(skus) then
           exists i :: 0 <= i < |skus| && skus[i].id == k && after[k] == before[k].(attrs := skus[i].attrs, unitPrice := skus[i].unitPrice)
         else after[k] == before[k]
  }

  lemma {:induction false} RowWiseNames(t: map<nat, ProductRow>, products: seq<Product>)
    ensures NamesApplied(t, UpdateNames(t, products), ProductIds(products), Names(products))
  {
    if products != [] {
      var n := |products| - 1;
      var ids, front := ProductIds(products), ProductIds(products[..n]);
      assert ids == front + [products[n].id] && Names(products) == Names(products[..n]) + [products[n].name];
      RowWiseNames(t, products[..n]);
      var before, after := UpdateNames(t, products[..n]), UpdateNames(t, products);
      forall k | k in t && k in ids
        ensures exists i :: 0 <= i < |ids| && ids[i] == k && after[k] == t[k].(name := Names(products)[i])
      {
        if k == products[n].id {
          assert ids[n] == k && Names(products)[n] == products[n].name;
        } else {
          var i :| 0 <= i < |front| && front[i] == k && before[k] == t[k].(name := Names(products[..n])[i]);
          assert ids[i] == k && Names(products)[i] == Names(products[..n])[i];
        }
      }
    }
  }

  lemma {:induction false} RowWiseSkus(t: map<nat, SkuRow>, skus: seq<Sku>)
    ensures SkusApplied(t, UpdateSkus(t, skus), skus)
  {
    if skus != [] {
      var n := |skus| - 1;
      assert SkuIds(skus) == SkuIds(skus[..n]) + [skus[n].id];
      RowWiseSkus(t, skus[..n]);
      var before, after := UpdateSkus(t, skus[..n]), UpdateSkus(t, skus);
      forall k | k in t && k in SkuIds(skus)
        ensures exists i :: 0 <= i < |skus| && skus[i].id == k && after[k] == t[k].(attrs := skus[i].attrs, unitPrice := skus[i].unitPrice)
      {
        if k == skus[n].id {
          assert skus[n].id == k;
        } else {
          assert k in SkuIds(skus[..n]);
          var i :| 0 <= i < n && skus[..n][i].id == k
                && before[k] == t[k].(attrs := skus[..n][i].attrs, unitPrice := skus[..n][i].unitPrice);
          assert skus[i] == skus[..n][i];
        }
      }
    }
  }

  lemma NamesUnique(before: map<nat, ProductRow>, a: map<nat, ProductRow>, b: map<nat, ProductRow>, ids: seq<nat>, names: seq<string>)
    requires |ids| == |names| && NoDup(ids)
    requires NamesApplied(before, a, ids, names) && NamesApplied(before, b, ids, names)
    ensures a == b
  {
  }

  lemma SkusUnique(before: map<nat, SkuRow>, a: map<nat, SkuRow>, b: map<nat, SkuRow>, skus: seq<Sku>)
    requires NoDup(SkuIds(skus))
    requires SkusApplied(before, a, skus) && SkusApplied(before, b, skus)
    ensures a == b
  {
    forall k | k in before ensures a[k] == b[k] {
      if k in SkuIds(skus) {
        var i :| 0 <= i < |skus| && skus[i].id == k && a[k] == before[k].(attrs := skus[i].attrs, unitPrice := skus[i].unitPrice);
        var j :| 0 <= j < |skus| && skus[j].id == k && b[k] == before[k].(attrs := skus[j].attrs, unitPrice := skus[j].unitPrice);
        assert SkuIds(skus)[i] == SkuIds(skus)[j];
      }
    }
  }

  /** What a batch update may leave in the two tables. */
  ghost predicate Applied(before: Tables, after: Tables, products: seq<Product>, paths: seq<string>) {
    && NamesApplied(before.products, after.products,
                    if NAME_PATH in paths then ProductIds(products) else [], if NAME_PATH in paths then Names(products) else [])
    && SkusApplied(before.skus, after.skus, if SKUS_PATH in paths then Flatten(products) else [])
  }

  lemma {:induction false} RowWiseApplied(t: Tables, products: seq<Product>, paths: seq<string>)
    ensures Applied(t, RowWise(t, products, paths), products, paths)
  {
    RowWiseTables(t, products, paths);
    RowWiseNames(t.products, products);
    RowWiseSkus(t.skus, Flatten(products));
  }

  /** The two statements on the columns: without a name column the first one sets
      nothing, without SKU columns the second one. */
  predicate ColumnsApplied(before: Tables, after: Tables, c: Columns)
    requires (c.names == [] || |c.names| == |c.ids|) && |c.skuIds| == |c.attrs| == |c.unitPrices|
  {
    && (if c.names == [] then after.products == before.products
        else NamesApplied(before.products, after.products, c.ids, c.names))
    && after.skus.Keys == before.skus.Keys
    && forall k :: k in before.skus ==>
         if k in c.skuIds then
           exists i :: 0 <= i < |c.skuIds| && c.skuIds[i] == k
                    && after.skus[k] == before.skus[k].(attrs := c.attrs[i], unitPrice := c.unitPrices[i])
         else after.skus[k] == before.skus[k]
  }

  lemma ColumnsMean(before: Tables, after: Tables, c: Columns, products: seq<Product>, paths: seq<string>)
    requires products != [] && Aligned(c, products, paths)
    ensures ColumnsApplied(before, after, c) <==> Applied(before, after, products, paths)
  {
    var skus := if SKUS_PATH in paths then Flatten(products) else [];
    if ColumnsApplied(before, after, c) {
      forall k | k in before.skus && k in SkuIds(skus)
        ensures exists i :: 0 <= i < |skus| && skus[i].id == k
                         && after.skus[k] == before.skus[k].(attrs := skus[i].attrs, unitPrice := skus[i].unitPrice)
      {
        var i :| 0 <= i < |c.skuIds| && c.skuIds[i] == k
              && after.skus[k] == before.skus[k].(attrs := c.attrs[i], unitPrice := c.unitPrices[i]);
        assert skus[i].id == k;
      }
    }
    if Applied(before, after, products, paths) {
      forall k | k in before.skus && k in c.skuIds
        ensures exists i :: 0 <= i < |c.skuIds| && c.skuIds[i] == k
                         && after.skus[k] == before.skus[k].(attrs := c.attrs[i], unitPrice := c.unitPrices[i])
      {
        var i :| 0 <= i < |skus| && skus[i].id == k
              && after.skus[k] == before.skus[k].(attrs := skus[i].attrs, unitPrice := skus[i].unitPrice);
        assert c.skuIds[i] == k;
      }
    }
  }

  /** For distinct product and SKU ids, applying the columns by position leaves
      exactly the tables of the row-by-row update. */
  lemma ColumnsAreRows(before: Tables, after: Tables, c: Columns, products: seq<Product>, paths: seq<string>)
    requires products != [] && Aligned(c, products, paths)
    requires NoDup(ProductIds(products)) && NoDup(SkuIds(Flatten(products)))
    ensures ColumnsApplied(before, after, c) <==> after == RowWise(before, products, paths)
  {
    ColumnsMean(before, after, c, products, paths);
    if Applied(before, after, products, paths) {
      AppliedIsRowWise(before, after, products, paths);
    }
    RowWiseApplied(before, products, paths);
  }

  lemma AppliedIsRowWise(before: Tables, after: Tables, products: seq<Product>, paths: seq<string>)
    requires NoDup(ProductIds(products)) && NoDup(SkuIds(Flatten(products)))
    requires Applied(before, after, products, paths)
    ensures after == RowWise(before, products, paths)
  {
    RowWiseApplied(before, products, paths);
    var rows := RowWise(before, products, paths);
    NamesUnique(before.products, after.products, rows.products,
                if NAME_PATH in paths then ProductIds(products) else [], if NAME_PATH in paths then Names(products) else []);
    SkusUnique(before.skus, after.skus, rows.skus, if SKUS_PATH in paths then Flatten(products) else []);
  }
}
