/** The payment line items `CreateCheckoutSession` hands to the payment gateway. */
module Payment {
  import opened Results
  import opened Money
  import opened Entities
  import opened Orders

  /** The currency of every line item. */
  const Currency: string := "sgd"

  /** One line item of a checkout session: product name, currency, unit amount in minor units
      (cents) and quantity. */
  datatype LineItem = LineItem(name: string, currency: string, unitAmount: int, quantity: int)

  /** `item` charges for the cart row `c`: named after its service, priced at `(long)(c.Price * 100)`
      cents, in the session currency, once, whatever the row's own quantity. */
  predicate ChargesFor(item: LineItem, c: Cart) {
    && item.name == c.service
    && item.currency == Currency
    && MinorUnits(c.price) == Some(item.unitAmount)
    && item.quantity == 1
  }

  /** The body of the `foreach` over the user's carts: `None` where the cast to `long`
      throws. */
  function LineItemOf(c: Cart): (r: Option<LineItem>)
    ensures r.None? <==> MinorUnits(c.price).None?
    ensures r.Some? ==> ChargesFor(r.value, c)
  {
    match MinorUnits(c.price)
    case None => None
    case Some(cents) => Some(LineItem(c.service, Currency, cents, 1))
  }

  /** The line items for `cs`, one per row and in the same order; `None` as soon as one row's
      price does not convert. */
  function LineItemsOf(cs: seq<Cart>): (r: Option<seq<LineItem>>)
    ensures r.None? <==> exists i :: 0 <= i < |cs| && MinorUnits(cs[i].price).None?
    ensures r.Some? ==> |r.value| == |cs| && forall i :: 0 <= i < |cs| ==> ChargesFor(r.value[i], cs[i])
  {
    if cs == [] then Some([])
    else
      match (LineItemOf(cs[0]), LineItemsOf(cs[1..]))
      case (Some(item), Some(items)) =>
        assert forall i :: 1 <= i < |cs| ==> cs[i] == cs[1..][i - 1];
        Some([item] + items)
      case (None, _) => None
      case (_, None) =>
        assert forall i :: 0 <= i < |cs[1..]| ==> cs[1..][i] == cs[i + 1];
        None
  }

  /** What the session charges: the sum of unit amount times quantity. */
  function Charged(items: seq<LineItem>): int {
    if items == [] then 0 else items[0].unitAmount * items[0].quantity + Charged(items[1..])
  }

  /** For non-negative prices the session charges the order total in cents, less the fractions of
      a cent that truncation drops: under one cent per line item. */
  lemma {:induction false} ChargedMatchesOrderTotal(cs: seq<Cart>, items: seq<LineItem>)
    requires forall i :: 0 <= i < |cs| ==> cs[i].price >= 0.0
    requires |items| == |cs| && forall i :: 0 <= i < |cs| ==> ChargesFor(items[i], cs[i])
    requires cs != []
    ensures Charged(items) as real <= 100.0 * CartTotal(cs) < Charged(items) as real + |cs| as real
  {
    assert ChargesFor(items[0], cs[0]);
    if |cs| > 1 {
      assert forall i :: 0 <= i < |cs[1..]| ==> cs[1..][i] == cs[i + 1] && items[1..][i] == items[i + 1];
      ChargedMatchesOrderTotal(cs[1..], items[1..]);
    } else {
      assert cs[1..] == [] && items[1..] == [];
    }
  }
}
