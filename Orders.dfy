/** What checkout makes of a user's cart rows: the order total and the order details. */
module Orders {
  import opened Entities

  /** `userCarts.Sum(cart => cart.Price)`. */
  function CartTotal(cs: seq<Cart>): (r: real)
    ensures (forall c | c in cs :: c.price >= 0.0) ==> r >= 0.0
    ensures (forall c | c in cs :: c.price == 0.0) ==> r == 0.0
  {
    if cs == [] then 0.0 else cs[0].price + CartTotal(cs[1..])
  }

  /** The total of two runs of rows is the sum of their totals. */
  lemma {:induction false} CartTotalConcat(a: seq<Cart>, b: seq<Cart>)
    ensures CartTotal(a + b) == CartTotal(a) + CartTotal(b)
  {
    if a == [] {
      assert a + b == b;
    } else {
      assert (a + b)[0] == a[0];
      assert (a + b)[1..] == a[1..] + b;
      CartTotalConcat(a[1..], b);
    }
  }

  /** The sum of the prices of an order's details. */
  function DetailTotal(ds: seq<OrderDetail>): real {
    if ds == [] then 0.0 else ds[0].price + DetailTotal(ds[1..])
  }

  /** Every order's total is the sum of the prices of its details. */
  ghost predicate TotalsMatch(os: seq<Order>) {
    forall o | o in os :: o.totalAmount == DetailTotal(o.details)
  }

  /** `d` is a field-for-field copy of the cart row `c`. */
  predicate CopiedFrom(d: OrderDetail, c: Cart) {
    && d.service == c.service
    && d.participants == c.participants
    && d.quantity == c.quantity
    && d.date == c.date
    && d.time == c.time
    && d.price == c.price
  }

  /** The details of the order made from `cs`: one copy per cart row, in the same order. */
  function DetailsOf(cs: seq<Cart>): (r: seq<OrderDetail>)
    ensures |r| == |cs|
    ensures forall i :: 0 <= i < |cs| ==> CopiedFrom(r[i], cs[i])
  {
    if cs == [] then []
    else [OrderDetail(cs[0].service, cs[0].participants, cs[0].quantity, cs[0].date, cs[0].time, cs[0].price)]
         + DetailsOf(cs[1..])
  }

  /** Copying keeps the prices, so the total of the details is the cart total. */
  lemma {:induction false} DetailsKeepTotal(cs: seq<Cart>, ds: seq<OrderDetail>)
    requires |ds| == |cs| && forall i :: 0 <= i < |cs| ==> CopiedFrom(ds[i], cs[i])
    ensures DetailTotal(ds) == CartTotal(cs)
  {
    if cs != [] {
      assert CopiedFrom(ds[0], cs[0]);
      assert forall i :: 0 <= i < |cs[1..]| ==> ds[1..][i] == ds[i + 1] && cs[1..][i] == cs[i + 1];
      DetailsKeepTotal(cs[1..], ds[1..]);
    }
  }

  /** The order made from `cs` has exactly one list of details: `DetailsOf(cs)`. */
  lemma DetailsOfIsTheCopy(cs: seq<Cart>, ds: seq<OrderDetail>)
    requires |ds| == |cs| && forall i :: 0 <= i < |cs| ==> CopiedFrom(ds[i], cs[i])
    ensures ds == DetailsOf(cs)
  {
    var d := DetailsOf(cs);
    forall i | 0 <= i < |cs| ensures ds[i] == d[i] {
      assert CopiedFrom(ds[i], cs[i]) && CopiedFrom(d[i], cs[i]);
    }
  }

  /** Appending an order with the next key and a matching total keeps the Orders table valid. */
  lemma AppendOrderKeepsKeys(os: seq<Order>, o: Order)
    requires UniqueOrderIds(os) && OrderIdsBelow(os, o.id) && 1 <= o.id && TotalsMatch(os)
    requires o.totalAmount == DetailTotal(o.details)
    ensures UniqueOrderIds(os + [o]) && OrderIdsBelow(os + [o], o.id + 1) && TotalsMatch(os + [o])
  {
    var r := os + [o];
    forall i, j | 0 <= i < j < |r| ensures r[i].id != r[j].id {
      assert r[i] == os[i];
      if j < |os| { assert r[j] == os[j]; } else { assert os[i] in os; }
    }
  }
}
