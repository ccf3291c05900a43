/** The order service's loop over the product service's SKU pages. */
module SkuPager {
  import opened Basics
  import opened CacheKeys
  import Money

  const MAX_PAGE_SIZE: nat := 100
  const NIL: Uuid := 0

  /** What the UUID parser makes of a text. It may read other forms of an id, too
      (upper case, braces, a urn prefix), as long as it reads back what is printed. */
  type Parser = string -> Option<Uuid>

  ghost predicate ReadsBack(parse: Parser) {
    forall u: Uuid :: parse(UuidText(u)) == Some(u)
  }

  /** Some parser does: the one that reads nothing but printed ids. */
  ghost function ReadPrinted(t: string): Option<Uuid> {
    if u: Uuid :| UuidText(u) == t then Some(u) else None
  }

  lemma PrintedReadsBack()
    ensures ReadsBack(ReadPrinted)
  {
    forall u: Uuid ensures ReadPrinted(UuidText(u)) == Some(u) {
      assert ReadPrinted(UuidText(u)).Some?;
      UuidTextInjective(ReadPrinted(UuidText(u)).value, u);
    }
  }

  /** `t` is the printed form of an id. */
  predicate IsText(parse: Parser, t: string) {
    parse(t).Some? && UuidText(parse(t).value) == t
  }

  /** An empty page token stands for the nil UUID. */
  function ParseToken(parse: Parser, t: string): Option<Uuid> {
    if t == "" then Some(NIL) else parse(t)
  }

  /** A SKU joined with its product; the price is absent if its text is no decimal. */
  datatype Detail = Detail(productName: string, attrs: string, unitPrice: Option<real>)

  type Table = map<Uuid, Detail>

  // ------------------------------------------------------------ the page query

  /** `page` answers "the requested SKUs past the token, by id, at most `size`". */
  predicate IsPage(table: Table, ids: set<Uuid>, token: Uuid, size: nat, page: seq<Uuid>) {
    && |page| <= size
    && (forall i :: 0 <= i < |page| ==> page[i] in table && page[i] in ids && token < page[i])
    && (forall i, j :: 0 <= i < j < |page| ==> page[i] < page[j])
    && (forall id :: id in ids && id in table && token < id && id !in page ==>
          |page| == size && forall i :: 0 <= i < |page| ==> page[i] < id)
  }

  lemma {:induction false} Smallest(s: set<Uuid>) returns (least: Uuid)
    requires s != {}
    ensures least in s && forall x :: x in s ==> least <= x
    decreases |s|
  {
    least :| least in s;
    assert forall x :: x in s ==> x == least || x in s - {least};
    if s - {least} != {} {
      var other := Smallest(s - {least});
      if other < least {
        least := other;
      }
    } else {
      assert s == {least};
    }
  }

  lemma {:induction false} PageExists(table: Table, ids: set<Uuid>, token: Uuid, size: nat) returns (page: seq<Uuid>)
    ensures IsPage(table, ids, token, size, page)
    decreases size
  {
    var rest := set id | id in ids && id in table && token < id;
    if size == 0 || rest == {} {
      page := [];
      assert forall id :: id in ids && id in table && token < id ==> id in rest;
    } else {
      var first := Smallest(rest);
      var tail := PageExists(table, ids, first, size - 1);
      page := [first] + tail;
      forall id | id in ids && id in table && token < id && id !in page
        ensures |page| == size && forall i :: 0 <= i < |page| ==> page[i] < id
      {
        assert id in rest && first in page;
        assert forall x :: x in tail ==> x in page;
      }
    }
  }

  datatype Page = Page(details: seq<(Uuid, Detail)>, next: string)
  {
    function Ids(): (ids: seq<Uuid>)
      ensures |ids| == |details|
    {
      seq(|details|, i requires 0 <= i < |details| => details[i].0)
    }
  }

  function Requested(parse: Parser, skuIds: seq<string>): set<Uuid> {
    set t | t in skuIds && parse(t).Some? :: parse(t).value
  }

  predicate AllParse(parse: Parser, skuIds: seq<string>) {
    forall i :: 0 <= i < |skuIds| ==> parse(skuIds[i]).Some?
  }

  /** What the product service answers: the page and, only if it is full, the last
      id as the next token. */
  ghost predicate Answers(parse: Parser, table: Table, skuIds: seq<string>, token: string, size: nat, page: Page) {
    && ParseToken(parse, token).Some?
    && IsPage(table, Requested(parse, skuIds), ParseToken(parse, token).value, size, page.Ids())
    && (forall i :: 0 <= i < |page.details| ==> page.details[i].0 in table && page.details[i].1 == table[page.details[i].0])
    && page.next == if |page.details| == size && size > 0 then UuidText(page.details[|page.details| - 1].0) else ""
  }

  method ParseAll(parse: Parser, skuIds: seq<string>) returns (ids: Option<set<Uuid>>)
    ensures ids.Some? <==> AllParse(parse, skuIds)
    ensures ids.Some? ==> ids.value == Requested(parse, skuIds)
  {
    var parsed: set<Uuid> := {};
    for i := 0 to |skuIds|
      invariant AllParse(parse, skuIds[..i])
      invariant parsed == Requested(parse, skuIds[..i])
    {
      assert skuIds[..i + 1] == skuIds[..i] + [skuIds[i]];
      if parse(skuIds[i]).None? {
        return None;
      }
      parsed := parsed + {parse(skuIds[i]).value};
    }
    assert skuIds[..|skuIds|] == skuIds;
    return Some(parsed);
  }

  /** The rows of the page, one after the other. */
  method Scan(table: Table, found: seq<Uuid>) returns (details: seq<(Uuid, Detail)>)
    requires forall i :: 0 <= i < |found| ==> found[i] in table
    ensures |details| == |found|
    ensures forall i :: 0 <= i < |found| ==> details[i] == (found[i], table[found[i]])
  {
    details := [];
    for i := 0 to |found|
      invariant |details| == i
      invariant forall j :: 0 <= j < i ==> details[j] == (found[j], table[found[j]])
    {
      details := details + [(found[i], table[found[i]])];
    }
  }

  /** `callError` is a query, a row or a network call that fails. */
  method BatchGetSkus(parse: Parser, table: Table, skuIds: seq<string>, token: string, size: int, callError: bool)
    returns (page: Option<Page>)
    ensures page.Some? <==> !callError && 1 <= size <= 100 && skuIds != [] && AllParse(parse, skuIds) && ParseToken(parse, token).Some?
    ensures page.Some? ==> Answers(parse, table, skuIds, token, size, page.value)
  {
    if size < 1 || size > MAX_PAGE_SIZE || |skuIds| == 0 {
      return None;
    }
    var ids := ParseAll(parse, skuIds);
    var pageToken := ParseToken(parse, token);
    if ids.None? || pageToken.None? || callError {
      return None;
    }
    ghost var possible := PageExists(table, ids.value, pageToken.value, size);
    var found: seq<Uuid> :| IsPage(table, ids.value, pageToken.value, size, found);
    assert IsPage(table, ids.value, pageToken.value, size, found);
    var details := Scan(table, found);
    var next := "";
    if |details| == size {
      next := UuidText(details[|details| - 1].0);
    }
    page := Some(Page(details, next));
    assert page.value.Ids() == found;
  }

  // -------------------------------------------------------------- the loop

  /** Requested ids that later pages may still return. */
  ghost function Ahead(parse: Parser, skuIds: seq<string>, token: Uuid): set<Uuid> {
    set id | id in Requested(parse, skuIds) && token < id
  }

  ghost predicate Within(table: Table, id: Uuid, detail: Detail) {
    id in table && table[id] == detail
  }

  /** The entry stems from one of the first `pages` snapshots. */
  ghost predicate Stems(parse: Parser, skuIds: seq<string>, snapshots: nat -> Table, pages: nat, t: string, detail: Detail) {
    && IsText(parse, t) && parse(t).value in Requested(parse, skuIds) && parse(t).value != NIL
    && exists k: nat :: k < pages && Within(snapshots(k), parse(t).value, detail)
  }

  /** Everything in `m` was requested and comes from one of the first `pages` snapshots. */
  ghost predicate Sound(parse: Parser, m: map<string, Detail>, skuIds: seq<string>, snapshots: nat -> Table, pages: nat) {
    forall t :: t in m ==> Stems(parse, skuIds, snapshots, pages, t, m[t])
  }

  /** Every requested id up to `token` that is in all of the first `pages` snapshots is in `m`. */
  ghost predicate CompleteUpTo(parse: Parser, m: map<string, Detail>, skuIds: seq<string>, snapshots: nat -> Table, pages: nat, token: Uuid) {
    forall id :: id in Requested(parse, skuIds) && NIL < id <= token && (forall k: nat :: k < pages ==> id in snapshots(k)) ==>
      UuidText(id) in m
  }

  ghost predicate Complete(parse: Parser, m: map<string, Detail>, skuIds: seq<string>, snapshots: nat -> Table, pages: nat) {
    forall id :: id in Requested(parse, skuIds) && id != NIL && (forall k: nat :: k < pages ==> id in snapshots(k)) ==>
      UuidText(id) in m
  }

  /** What is past the token and in every snapshot, this one included, is on the
      page just read, or past its last id if it is full. */
  lemma PageMisses(parse: Parser, skuIds: seq<string>, snapshots: nat -> Table, pages: nat, token: Uuid, text: string, page: Page, id: Uuid)
    requires ParseToken(parse, text) == Some(token)
    requires Answers(parse, snapshots(pages), skuIds, text, MAX_PAGE_SIZE, page)
    requires id in Requested(parse, skuIds) && token < id && id in snapshots(pages)
    requires id !in page.Ids()
    ensures |page.Ids()| == MAX_PAGE_SIZE && page.Ids()[MAX_PAGE_SIZE - 1] < id
  {
  }

  lemma MergedPage(m: map<string, Detail>, m': map<string, Detail>, page: Page, id: Uuid)
    requires IsMerged(m, m', page.details) && id in page.Ids()
    ensures UuidText(id) in m'
  {
    var i :| 0 <= i < |page.Ids()| && page.Ids()[i] == id;
    assert page.details[i] in page.details;
  }

  /** The page just read covers everything up to its last id, and everything at all
      if it is not full. */
  lemma PageCovers(parse: Parser, m: map<string, Detail>, m': map<string, Detail>, skuIds: seq<string>, snapshots: nat -> Table, pages: nat,
                   token: Uuid, text: string, page: Page, id: Uuid)
    requires ParseToken(parse, text) == Some(token)
    requires Answers(parse, snapshots(pages), skuIds, text, MAX_PAGE_SIZE, page)
    requires IsMerged(m, m', page.details)
    requires CompleteUpTo(parse, m, skuIds, snapshots, pages, token)
    requires id in Requested(parse, skuIds) && id != NIL && forall k: nat :: k < pages + 1 ==> id in snapshots(k)
    ensures UuidText(id) in m' || (|page.Ids()| == MAX_PAGE_SIZE && page.Ids()[MAX_PAGE_SIZE - 1] < id)
  {
    if id in page.Ids() {
      MergedPage(m, m', page, id);
    } else if token < id {
      assert id in snapshots(pages);
      PageMisses(parse, skuIds, snapshots, pages, token, text, page, id);
    } else {
      assert forall k: nat :: k < pages ==> id in snapshots(k);
    }
  }

  lemma PageComplete(parse: Parser, m: map<string, Detail>, m': map<string, Detail>, skuIds: seq<string>, snapshots: nat -> Table, pages: nat,
                     token: Uuid, text: string, page: Page)
    requires ParseToken(parse, text) == Some(token)
    requires Answers(parse, snapshots(pages), skuIds, text, MAX_PAGE_SIZE, page)
    requires IsMerged(m, m', page.details)
    requires CompleteUpTo(parse, m, skuIds, snapshots, pages, token)
    ensures if |page.Ids()| < MAX_PAGE_SIZE then Complete(parse, m', skuIds, snapshots, pages + 1)
            else CompleteUpTo(parse, m', skuIds, snapshots, pages + 1, page.Ids()[MAX_PAGE_SIZE - 1])
  {
    forall id | id in Requested(parse, skuIds) && id != NIL && (forall k: nat :: k < pages + 1 ==> id in snapshots(k))
      ensures UuidText(id) in m' || (|page.Ids()| == MAX_PAGE_SIZE && page.Ids()[MAX_PAGE_SIZE - 1] < id)
    {
      PageCovers(parse, m, m', skuIds, snapshots, pages, token, text, page, id);
    }
  }

  /** A full page names a later token and leaves less to come. */
  lemma PageAdvances(parse: Parser, skuIds: seq<string>, table: Table, token: Uuid, text: string, page: Page)
    requires ReadsBack(parse) && ParseToken(parse, text) == Some(token)
    requires Answers(parse, table, skuIds, text, MAX_PAGE_SIZE, page)
    ensures page.next == "" <==> |page.Ids()| < MAX_PAGE_SIZE
    ensures page.next != "" ==>
              && parse(page.next) == Some(page.Ids()[MAX_PAGE_SIZE - 1]) && token < parse(page.next).value
              && |Ahead(parse, skuIds, parse(page.next).value)| + MAX_PAGE_SIZE <= |Ahead(parse, skuIds, token)|
  {
    if page.next != "" {
      FullPageShrinks(parse, skuIds, token, page.Ids());
    }
  }

  lemma FullPageShrinks(parse: Parser, skuIds: seq<string>, token: Uuid, found: seq<Uuid>)
    requires 0 < |found|
    requires forall i :: 0 <= i < |found| ==> found[i] in Requested(parse, skuIds) && token < found[i]
    requires forall i, j :: 0 <= i < j < |found| ==> found[i] < found[j]
    ensures |Ahead(parse, skuIds, found[|found| - 1])| + |found| <= |Ahead(parse, skuIds, token)|
  {
    var listed := set id | id in found;
    NoDupSize(found, listed);
    var later := Ahead(parse, skuIds, found[|found| - 1]);
    assert listed !! later;
    assert |listed + later| == |listed| + |later|;
    Subset(listed + later, Ahead(parse, skuIds, token));
  }

  lemma {:induction false} Subset(a: set<Uuid>, b: set<Uuid>)
    requires a <= b
    ensures |a| <= |b|
  {
    if a != {} {
      var x :| x in a;
      Subset(a - {x}, b - {x});
    }
  }

  /** `m'` is `m` with the details entered under their canonical ids. */
  ghost predicate IsMerged(m: map<string, Detail>, m': map<string, Detail>, details: seq<(Uuid, Detail)>) {
    && (forall t :: t in m ==> t in m')
    && (forall d :: d in details ==> UuidText(d.0) in m')
    && (forall t :: t in m' ==> (t in m && m'[t] == m[t]) || exists d :: d in details && t == UuidText(d.0) && m'[t] == d.1)
  }

  method Merge(m: map<string, Detail>, details: seq<(Uuid, Detail)>) returns (m': map<string, Detail>)
    ensures IsMerged(m, m', details)
  {
    m' := m;
    for i := 0 to |details|
      invariant IsMerged(m, m', details[..i])
    {
      assert details[..i + 1] == details[..i] + [details[i]];
      m' := m'[UuidText(details[i].0) := details[i].1];
    }
    assert details[..|details|] == details;
  }

  /** An entry that the page brings. */
  lemma PageEntry(parse: Parser, table: Table, skuIds: seq<string>, text: string, page: Page, d: (Uuid, Detail))
    requires Answers(parse, table, skuIds, text, MAX_PAGE_SIZE, page) && d in page.details
    ensures d.0 in Requested(parse, skuIds) && d.0 != NIL && Within(table, d.0, d.1)
  {
    var i :| 0 <= i < |page.details| && page.details[i] == d;
    assert page.Ids()[i] == d.0;
  }

  lemma NewEntry(parse: Parser, skuIds: seq<string>, snapshots: nat -> Table, pages: nat, text: string, page: Page, d: (Uuid, Detail))
    requires ReadsBack(parse)
    requires Answers(parse, snapshots(pages), skuIds, text, MAX_PAGE_SIZE, page) && d in page.details
    ensures Stems(parse, skuIds, snapshots, pages + 1, UuidText(d.0), d.1)
  {
    PageEntry(parse, snapshots(pages), skuIds, text, page, d);
  }

  lemma MergeSound(parse: Parser, m: map<string, Detail>, m': map<string, Detail>, skuIds: seq<string>, snapshots: nat -> Table, pages: nat,
                   text: string, page: Page)
    requires ReadsBack(parse)
    requires Answers(parse, snapshots(pages), skuIds, text, MAX_PAGE_SIZE, page)
    requires IsMerged(m, m', page.details)
    requires Sound(parse, m, skuIds, snapshots, pages)
    ensures Sound(parse, m', skuIds, snapshots, pages + 1)
  {
    forall t | t in m' ensures Stems(parse, skuIds, snapshots, pages + 1, t, m'[t]) {
      if t in m && m'[t] == m[t] {
        assert Stems(parse, skuIds, snapshots, pages, t, m[t]);
      } else {
        var d :| d in page.details && t == UuidText(d.0) && m'[t] == d.1;
        NewEntry(parse, skuIds, snapshots, pages, text, page, d);
      }
    }
  }

  /** The calls for the first `pages` pages went through. */
  ghost predicate NoneFailed(fails: nat -> bool, pages: nat) {
    forall k: nat :: k < pages ==> !fails(k)
  }

  lemma OneMoreCall(fails: nat -> bool, pages: nat)
    requires NoneFailed(fails, pages) && !fails(pages)
    ensures NoneFailed(fails, pages + 1)
  {
  }

  /** What the loop knows before it asks for page number `pages`. */
  ghost predicate LoopInv(parse: Parser, m: map<string, Detail>, skuIds: seq<string>, snapshots: nat -> Table, pages: nat, token: Uuid) {
    && Sound(parse, m, skuIds, snapshots, pages)
    && CompleteUpTo(parse, m, skuIds, snapshots, pages, token)
    && MAX_PAGE_SIZE * pages + |Ahead(parse, skuIds, token)| <= |Requested(parse, skuIds)|
  }

  lemma PageStep(parse: Parser, m: map<string, Detail>, m': map<string, Detail>, skuIds: seq<string>, snapshots: nat -> Table, pages: nat,
                 token: Uuid, text: string, page: Page)
    requires LoopInv(parse, m, skuIds, snapshots, pages, token)
    requires ReadsBack(parse) && ParseToken(parse, text) == Some(token)
    requires Answers(parse, snapshots(pages), skuIds, text, MAX_PAGE_SIZE, page)
    requires IsMerged(m, m', page.details)
    ensures Sound(parse, m', skuIds, snapshots, pages + 1)
    ensures page.next == "" ==> Complete(parse, m', skuIds, snapshots, pages + 1)
    ensures page.next != "" ==>
              && parse(page.next).Some?
              && LoopInv(parse, m', skuIds, snapshots, pages + 1, parse(page.next).value)
              && |Ahead(parse, skuIds, parse(page.next).value)| < |Ahead(parse, skuIds, token)|
  {
    MergeSound(parse, m, m', skuIds, snapshots, pages, text, page);
    PageAdvances(parse, skuIds, snapshots(pages), token, text, page);
    PageComplete(parse, m, m', skuIds, snapshots, pages, token, text, page);
  }

  /** `snapshots(k)` is the table when page k is read and `fails(k)` says that the
      call for page k fails. Ends whatever the tables are. */
  method FetchAllSkuDetails(parse: Parser, skuIds: seq<string>, snapshots: nat -> Table, fails: nat -> bool)
    returns (result: Option<map<string, Detail>>, pages: nat)
    requires ReadsBack(parse)
    ensures 0 < pages && 100 * (pages - 1) <= |Requested(parse, skuIds)|
    ensures result.None? <==> skuIds == [] || !AllParse(parse, skuIds) || !NoneFailed(fails, pages)
    ensures result.Some? ==> Sound(parse, result.value, skuIds, snapshots, pages)
    ensures result.Some? ==> Complete(parse, result.value, skuIds, snapshots, pages)
  {
    var nextPageToken := "";
    var m: map<string, Detail> := map[];
    ghost var token: Uuid := NIL;
    pages := 0;
    Subset(Ahead(parse, skuIds, NIL), Requested(parse, skuIds));
    while true
      invariant ParseToken(parse, nextPageToken) == Some(token)
      invariant pages > 0 ==> skuIds != [] && AllParse(parse, skuIds)
      invariant NoneFailed(fails, pages)
      invariant LoopInv(parse, m, skuIds, snapshots, pages, token)
      decreases |Ahead(parse, skuIds, token)|
    {
      var page := BatchGetSkus(parse, snapshots(pages), skuIds, nextPageToken, MAX_PAGE_SIZE, fails(pages));
      if page.None? {
        pages := pages + 1;
        return None, pages;
      }
      OneMoreCall(fails, pages);
      var merged := Merge(m, page.value.details);
      PageStep(parse, m, merged, skuIds, snapshots, pages, token, nextPageToken, page.value);
      m, pages := merged, pages + 1;
      if page.value.next == "" {
        return Some(m), pages;
      }
      nextPageToken := page.value.next;
      token := parse(nextPageToken).value;
    }
  }

  /** The requested, non-nil SKUs that exist, under their canonical text. */
  ghost function Filter(parse: Parser, skuIds: seq<string>, table: Table): map<string, Detail>
    requires ReadsBack(parse)
  {
    map t | t in FilterNames(parse, skuIds, table) :: table[parse(t).value]
  }

  ghost function FilterNames(parse: Parser, skuIds: seq<string>, table: Table): (names: set<string>)
    requires ReadsBack(parse)
    ensures forall t :: t in names <==>
              IsText(parse, t) && parse(t).value in Requested(parse, skuIds) && parse(t).value in table && parse(t).value != NIL
  {
    set id | id in Requested(parse, skuIds) && id in table && id != NIL :: UuidText(id)
  }

  /** On a table that stays the same the loop is that filter. */
  lemma FixedTableFilter(parse: Parser, m: map<string, Detail>, skuIds: seq<string>, snapshots: nat -> Table, pages: nat, table: Table)
    requires ReadsBack(parse)
    requires 0 < pages && forall k: nat :: k < pages ==> snapshots(k) == table
    requires Sound(parse, m, skuIds, snapshots, pages) && Complete(parse, m, skuIds, snapshots, pages)
    ensures m == Filter(parse, skuIds, table)
  {
    forall t ensures t in m <==> t in FilterNames(parse, skuIds, table) {
      FilterComplete(parse, m, skuIds, snapshots, pages, table, t);
    }
    forall t | t in m ensures m[t] == table[parse(t).value] {
      FilterSound(parse, m, skuIds, snapshots, pages, table, t);
    }
  }

  lemma FilterSound(parse: Parser, m: map<string, Detail>, skuIds: seq<string>, snapshots: nat -> Table, pages: nat, table: Table, t: string)
    requires ReadsBack(parse) && t in m
    requires forall k: nat :: k < pages ==> snapshots(k) == table
    requires Sound(parse, m, skuIds, snapshots, pages)
    ensures IsText(parse, t) && parse(t).value in table && m[t] == table[parse(t).value]
    ensures t in FilterNames(parse, skuIds, table)
  {
    var k: nat :| k < pages && Within(snapshots(k), parse(t).value, m[t]);
  }

  lemma FilterComplete(parse: Parser, m: map<string, Detail>, skuIds: seq<string>, snapshots: nat -> Table, pages: nat, table: Table, t: string)
    requires ReadsBack(parse)
    requires forall k: nat :: k < pages ==> snapshots(k) == table
    requires Sound(parse, m, skuIds, snapshots, pages) && Complete(parse, m, skuIds, snapshots, pages)
    ensures t in m <==> t in FilterNames(parse, skuIds, table)
  {
    if t in m {
      FilterSound(parse, m, skuIds, snapshots, pages, table, t);
    }
    if t in FilterNames(parse, skuIds, table) {
      var id := parse(t).value;
      assert t == UuidText(id) && forall k: nat :: k < pages ==> id in snapshots(k);
    }
  }

  // ------------------------------------------------------------- order items

  datatype OrderLine = OrderLine(skuId: string, quantity: int)

  /** The line can be looked up and its price can be read. */
  predicate Convertible(parse: Parser, line: OrderLine, mapping: map<string, Detail>) {
    line.skuId in mapping && parse(line.skuId).Some? && mapping[line.skuId].unitPrice.Some?
  }

  /** The lookup is by the text the client sent, not by the id it means. */
  method ConvertToBizOrderItems(parse: Parser, lines: seq<OrderLine>, mapping: map<string, Detail>)
    returns (items: Option<seq<Money.Item>>)
    ensures items.Some? <==> forall line :: line in lines ==> Convertible(parse, line, mapping)
    ensures items.Some? ==>
              && |items.value| == |lines|
              && forall i :: 0 <= i < |lines| ==>
                   && Convertible(parse, lines[i], mapping)
                   && parse(lines[i].skuId) == Some(items.value[i].sku)
                   && items.value[i].quantity == lines[i].quantity
                   && mapping[lines[i].skuId].unitPrice == Some(items.value[i].unitPrice)
  {
    var converted: seq<Money.Item> := [];
    for i := 0 to |lines|
      invariant |converted| == i
      invariant forall j :: 0 <= j < i ==>
                  && Convertible(parse, lines[j], mapping)
                  && converted[j] == Money.Item(parse(lines[j].skuId).value, lines[j].quantity, mapping[lines[j].skuId].unitPrice.value)
    {
      var line := lines[i];
      if line.skuId !in mapping || parse(line.skuId).None? || mapping[line.skuId].unitPrice.None? {
        assert line in lines && !Convertible(parse, line, mapping);
        return None;
      }
      converted := converted + [Money.Item(parse(line.skuId).value, line.quantity, mapping[line.skuId].unitPrice.value)];
    }
    return Some(converted);
  }

  /** The line names an existing SKU by its printed id, and its price can be read. */
  ghost predicate Orderable(parse: Parser, line: OrderLine, table: Table) {
    IsText(parse, line.skuId) && parse(line.skuId).value != NIL && parse(line.skuId).value in table
    && table[parse(line.skuId).value].unitPrice.Some?
  }

  /** Some page showed this price for the id. */
  ghost predicate PricedFrom(snapshots: nat -> Table, pages: nat, id: Uuid, price: real) {
    exists k: nat, detail :: k < pages && Within(snapshots(k), id, detail) && detail.unitPrice == Some(price)
  }

  ghost predicate Quiet(snapshots: nat -> Table, fails: nat -> bool, pages: nat, table: Table) {
    NoneFailed(fails, pages) && forall k: nat :: k < pages ==> snapshots(k) == table
  }

  lemma LineConvertible(parse: Parser, line: OrderLine, skuIds: seq<string>, table: Table)
    requires ReadsBack(parse) && line.skuId in skuIds
    ensures Convertible(parse, line, Filter(parse, skuIds, table)) <==> Orderable(parse, line, table)
  {
    assert line.skuId in Filter(parse, skuIds, table) <==> line.skuId in FilterNames(parse, skuIds, table);
  }

  /** Fetching and converting, as order creation does. Whatever happens to the
      catalogue meanwhile, an order that comes out has one item per line, named by
      its printed id, at a price that some page showed. And while the catalogue is
      `table` throughout and no call fails, the order comes out if and only if there
      is a line and each line names an existing SKU by its printed id. */
  method PriceOrder(parse: Parser, lines: seq<OrderLine>, snapshots: nat -> Table, fails: nat -> bool, ghost table: Table)
    returns (items: Option<seq<Money.Item>>, pages: nat)
    requires ReadsBack(parse)
    ensures items.Some? ==>
              && lines != [] && |items.value| == |lines|
              && forall i :: 0 <= i < |lines| ==>
                   && IsText(parse, lines[i].skuId) && parse(lines[i].skuId) == Some(items.value[i].sku)
                   && items.value[i].quantity == lines[i].quantity
                   && PricedFrom(snapshots, pages, parse(lines[i].skuId).value, items.value[i].unitPrice)
    ensures Quiet(snapshots, fails, pages, table) ==>
              (items.Some? <==> lines != [] && forall line :: line in lines ==> Orderable(parse, line, table))
  {
    if |lines| == 0 {
      return None, 0;
    }
    var skuIds := seq(|lines|, i requires 0 <= i < |lines| => lines[i].skuId);
    var m;
    m, pages := FetchAllSkuDetails(parse, skuIds, snapshots, fails);
    forall line | line in lines ensures line.skuId in skuIds {
      var i :| 0 <= i < |lines| && lines[i] == line;
      assert skuIds[i] == line.skuId;
    }
    if m.None? {
      if NoneFailed(fails, pages) {
        Unparsed(parse, lines, skuIds);
      }
      return None, pages;
    }
    items := ConvertToBizOrderItems(parse, lines, m.value);
    if Quiet(snapshots, fails, pages, table) {
      FixedTableFilter(parse, m.value, skuIds, snapshots, pages, table);
      forall line | line in lines ensures Convertible(parse, line, m.value) <==> Orderable(parse, line, table) {
        LineConvertible(parse, line, skuIds, table);
      }
    }
  }

  lemma Unparsed(parse: Parser, lines: seq<OrderLine>, skuIds: seq<string>)
    requires |skuIds| == |lines| && forall i :: 0 <= i < |lines| ==> skuIds[i] == lines[i].skuId
    requires !AllParse(parse, skuIds)
    ensures exists line :: line in lines && parse(line.skuId).None?
  {
    var i :| 0 <= i < |skuIds| && parse(skuIds[i]).None?;
    assert lines[i] in lines;
  }
}
