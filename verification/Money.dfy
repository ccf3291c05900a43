/** Order totals against what the payment provider is asked to charge. */
module Money {

  /** An order or payment item; prices are exact decimals. */
  datatype Item = Item(sku: nat, quantity: int, unitPrice: real)

  /** The integer part of a decimal: truncation toward zero. */
  function IntPart(x: real): int {
    if x >= 0.0 then x.Floor else -((-x).Floor)
  }

  /** The unit amount of a line item, in cents. */
  function Cents(price: real): int {
    IntPart(price * 100.0)
  }

  /** What a NUMERIC(10, 2) column can hold has no more than two decimals. */
  predicate TwoDecimals(price: real) {
    (price * 100.0).Floor as real == price * 100.0
  }

  /** The exact value of the items. */
  ghost function Value(items: seq<Item>): real {
    if items == [] then 0.0
    else Value(items[..|items| - 1]) + items[|items| - 1].unitPrice * items[|items| - 1].quantity as real
  }

  datatype LineItem = LineItem(unitAmount: int, quantity: int)

  /** What the provider adds up over the session's line items. */
  ghost function AmountTotal(lines: seq<LineItem>): int {
    if lines == [] then 0
    else AmountTotal(lines[..|lines| - 1]) + lines[|lines| - 1].unitAmount * lines[|lines| - 1].quantity
  }

  ghost function Quantities(items: seq<Item>): int {
    if items == [] then 0 else Quantities(items[..|items| - 1]) + items[|items| - 1].quantity
  }

  ghost function LinesOf(items: seq<Item>): (lines: seq<LineItem>)
    ensures |lines| == |items|
  {
    seq(|items|, i requires 0 <= i < |items| => LineItem(Cents(items[i].unitPrice), items[i].quantity))
  }

  /** The loop that totals an order. */
  method OrderTotal(items: seq<Item>) returns (total: real)
    ensures total == Value(items)
  {
    total := 0.0;
    for k := 0 to |items|
      invariant total == Value(items[..k])
    {
      assert items[..k + 1][..k] == items[..k];
      total := total + items[k].unitPrice * items[k].quantity as real;
    }
    assert items[..|items|] == items;
  }

  /** The loop that prices a checkout session. */
  method StripeLineItems(items: seq<Item>) returns (lines: seq<LineItem>)
    ensures lines == LinesOf(items)
    ensures forall i :: 0 <= i < |items| ==>
              lines[i].unitAmount == Cents(items[i].unitPrice) && lines[i].quantity == items[i].quantity
  {
    lines := [];
    for k := 0 to |items|
      invariant lines == LinesOf(items)[..k]
    {
      var unitAmount := IntPart(items[k].unitPrice * 100.0);
      lines := lines + [LineItem(unitAmount, items[k].quantity)];
    }
  }

  /** What the provider reports for a session. */
  method SessionTotal(lines: seq<LineItem>) returns (total: int)
    ensures total == AmountTotal(lines)
  {
    total := 0;
    for k := 0 to |lines|
      invariant total == AmountTotal(lines[..k])
    {
      assert lines[..k + 1][..k] == lines[..k];
      total := total + lines[k].unitAmount * lines[k].quantity;
    }
    assert lines[..|lines|] == lines;
  }

  /** The amount stored with the payment, from the provider's total in cents. */
  function PaymentAmount(amountTotal: int): real {
    amountTotal as real / 100.0
  }

  lemma LinesPrefix(items: seq<Item>)
    requires items != []
    ensures LinesOf(items)[..|items| - 1] == LinesOf(items[..|items| - 1])
  {
  }

  lemma CentsExact(price: real)
    requires TwoDecimals(price)
    ensures Cents(price) as real == price * 100.0
  {
    var cents := (price * 100.0).Floor;
    if price * 100.0 < 0.0 {
      assert -(price * 100.0) == (-cents) as real;
    }
  }

  lemma CentsShort(price: real)
    requires 0.0 <= price
    ensures 0.0 <= price * 100.0 - Cents(price) as real < 1.0
    ensures TwoDecimals(price) <==> price * 100.0 - Cents(price) as real == 0.0
  {
  }

  lemma Scale(price: real, cents: int, quantity: int)
    ensures 100.0 * (price * quantity as real) - (cents * quantity) as real
            == (price * 100.0 - cents as real) * quantity as real
  {
    assert (cents * quantity) as real == cents as real * quantity as real;
  }

  /** With prices of at most two decimals nothing is lost: the charge is the order
      total in cents, and the stored payment amount is the order total. */
  lemma {:induction false} MoneyConserved(items: seq<Item>)
    requires forall item :: item in items ==> TwoDecimals(item.unitPrice)
    ensures AmountTotal(LinesOf(items)) as real == 100.0 * Value(items)
    ensures PaymentAmount(AmountTotal(LinesOf(items))) == Value(items)
  {
    if items != [] {
      var last := items[|items| - 1];
      LinesPrefix(items);
      MoneyConserved(items[..|items| - 1]);
      CentsExact(last.unitPrice);
      Scale(last.unitPrice, Cents(last.unitPrice), last.quantity);
    }
  }

  ghost predicate Chargeable(items: seq<Item>) {
    forall item :: item in items ==> 0.0 <= item.unitPrice && 0 < item.quantity
  }

  /** What the charge falls short of the order total, in cents. */
  ghost function Short(items: seq<Item>): real {
    100.0 * Value(items) - AmountTotal(LinesOf(items)) as real
  }

  /** What the truncation of its unit amount loses on one item. */
  ghost function Loss(item: Item): real {
    (item.unitPrice * 100.0 - Cents(item.unitPrice) as real) * item.quantity as real
  }

  ghost function Losses(items: seq<Item>): (losses: seq<real>)
    ensures |losses| == |items|
  {
    seq(|items|, i requires 0 <= i < |items| => Loss(items[i]))
  }

  ghost function Sum(xs: seq<real>): real {
    if xs == [] then 0.0 else Sum(xs[..|xs| - 1]) + xs[|xs| - 1]
  }

  lemma {:induction false} ShortIsLosses(items: seq<Item>)
    ensures Short(items) == Sum(Losses(items))
  {
    if items != [] {
      var last := items[|items| - 1];
      LinesPrefix(items);
      ShortIsLosses(items[..|items| - 1]);
      assert Losses(items)[..|items| - 1] == Losses(items[..|items| - 1]);
      Scale(last.unitPrice, Cents(last.unitPrice), last.quantity);
    }
  }

  lemma LossBound(item: Item)
    requires 0.0 <= item.unitPrice && 0 < item.quantity
    ensures 0.0 <= Loss(item) < item.quantity as real
    ensures Loss(item) == 0.0 <==> TwoDecimals(item.unitPrice)
  {
    CentsShort(item.unitPrice);
    var part := ShortItem(item.unitPrice * 100.0 - Cents(item.unitPrice) as real, item.quantity);
  }

  lemma {:induction false} SumBound(losses: seq<real>, items: seq<Item>)
    requires |losses| == |items|
    requires forall i :: 0 <= i < |items| ==> 0.0 <= losses[i] < items[i].quantity as real
    ensures 0.0 <= Sum(losses)
    ensures items != [] ==> Sum(losses) < Quantities(items) as real
    ensures Sum(losses) == 0.0 <==> forall i :: 0 <= i < |losses| ==> losses[i] == 0.0
  {
    if items != [] {
      var n := |items| - 1;
      SumBound(losses[..n], items[..n]);
      assert Sum(losses) == 0.0 ==> losses[n] == 0.0 && forall i :: 0 <= i < n ==> losses[..n][i] == losses[i] == 0.0;
    }
  }

  /** For any non-negative prices and positive quantities the charge never exceeds
      the order total, falls short by less than one cent per unit, and meets it
      exactly when every price has at most two decimals. */
  lemma Shortfall(items: seq<Item>)
    requires Chargeable(items)
    ensures 0.0 <= Short(items)
    ensures items != [] ==> Short(items) < Quantities(items) as real
    ensures Short(items) == 0.0 <==> forall item :: item in items ==> TwoDecimals(item.unitPrice)
  {
    ShortIsLosses(items);
    forall i | 0 <= i < |items|
      ensures 0.0 <= Losses(items)[i] < items[i].quantity as real
      ensures Losses(items)[i] == 0.0 <==> TwoDecimals(items[i].unitPrice)
    {
      LossBound(items[i]);
    }
    SumBound(Losses(items), items);
  }

  lemma Positive(a: real, b: real)
    requires 0.0 < a && 0.0 < b
    ensures 0.0 < a * b
  {
  }

  lemma ShortItem(short: real, quantity: int) returns (part: real)
    requires 0.0 <= short < 1.0 && 0 < quantity
    ensures part == short * quantity as real
    ensures 0.0 <= part < quantity as real
    ensures part == 0.0 <==> short == 0.0
  {
    var q := quantity as real;
    part := short * q;
    Positive(1.0 - short, q);
    assert (1.0 - short) * q == q - part;
    if 0.0 < short {
      Positive(short, q);
    }
  }
}
