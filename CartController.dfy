/** The actions of the cart controller, as operations on an in-memory copy of the database: the
    Carts table and the Orders table (each order holding its details). The caller's user id, the
    current time and the outcome of sending the confirmation mail are parameters; primary keys are
    handed out by auto-increment counters, as the database does. */
module CartController {
  import opened Results
  import opened Text
  import opened Money
  import opened Entities
  import opened Listing
  import opened Orders
  import opened Payment

  /** The message of the `BadRequest` returned for an empty cart. */
  const NoItemsMessage: string := "No items in the cart to checkout."

  /** The row `AddCart` stores for `cart`: the text fields trimmed, both timestamps `now`, and
      the caller as owner whatever user id the request carried. */
  function NewCart(id: int, caller: int, now: Timestamp, cart: Cart): (r: Cart)
    ensures r.service == Trim(cart.service) && r.participants == Trim(cart.participants)
    ensures r.quantity == cart.quantity && r.date == cart.date && r.time == cart.time
    ensures r.price == cart.price
    ensures r.createdAt == now && r.updatedAt == now && r.userId == caller && r.id == id
  {
    Cart(id, Trim(cart.service), Trim(cart.participants), cart.quantity, cart.date, cart.time,
         cart.price, now, now, caller)
  }

  /** The row `UpdateCart` leaves in place of `row`: the fields the request may change are taken
      from `cart` (text trimmed), `UpdatedAt` is `now`; key, owner and `CreatedAt` stay. */
  function Revised(row: Cart, cart: Cart, now: Timestamp): (r: Cart)
    ensures r.id == row.id && r.userId == row.userId && r.createdAt == row.createdAt
    ensures r.service == Trim(cart.service) && r.participants == Trim(cart.participants)
    ensures r.quantity == cart.quantity && r.date == cart.date && r.time == cart.time
    ensures r.price == cart.price
    ensures r.updatedAt == now
  {
    row.(service := Trim(cart.service), participants := Trim(cart.participants),
         quantity := cart.quantity, date := cart.date, time := cart.time, price := cart.price,
         updatedAt := now)
  }

  class Store {
    var carts: seq<Cart>
    var orders: seq<Order>
    var nextCartId: int
    var nextOrderId: int

    /** Keys are unique and below the next key to hand out; every order's total is the sum of the
        prices of its details. */
    ghost predicate Valid()
      reads this
    {
      && 1 <= nextCartId && 1 <= nextOrderId
      && UniqueIds(carts) && IdsBelow(carts, nextCartId)
      && UniqueOrderIds(orders) && OrderIdsBelow(orders, nextOrderId)
      && TotalsMatch(orders)
    }

    constructor ()
      ensures Valid()
      ensures carts == [] && orders == [] && nextCartId == 1 && nextOrderId == 1
    {
      carts, orders := [], [];
      nextCartId, nextOrderId := 1, 1;
    }

    /** `GET /cart?search=`: the matching rows (all of them with no search string), each once,
        newest first. */
    function GetAll(search: Option<string>): (r: seq<Cart>)
      reads this
      ensures NewestFirst(r)
      ensures forall c :: multiset(r)[c] == if Matches(c, search) then multiset(carts)[c] else 0
      ensures forall c :: c in r <==> c in carts && Matches(c, search)
    {
      var r := SortNewestFirst(Filter(carts, search));
      assert forall c :: c in r <==> c in multiset(r);
      r
    }

    /** `GET /cart/{id}`: the row with key `id`, or `NotFound`. */
    function GetCart(id: int): (r: Reply<Cart>)
      reads this
      ensures r.Ok? || r.NotFound?
      ensures r.NotFound? <==> forall c | c in carts :: c.id != id
      ensures r.Ok? ==> r.value in carts && r.value.id == id
    {
      match FindCart(carts, id)
      case None => NotFound
      case Some(i) => Ok(carts[i])
    }

    /** `POST /cart`: appends a new row owned by the caller and returns it. */
    method AddCart(caller: int, now: Timestamp, cart: Cart) returns (r: Reply<Cart>)
      requires Valid()
      modifies this
      ensures Valid()
      ensures r == Ok(NewCart(old(nextCartId), caller, now, cart))
      ensures carts == old(carts) + [r.value] && orders == old(orders)
      ensures nextCartId == old(nextCartId) + 1 && nextOrderId == old(nextOrderId)
      ensures GetCart(r.value.id) == r
    {
      var row := NewCart(nextCartId, caller, now, cart);
      AppendKeepsKeys(carts, row);
      carts := carts + [row];
      nextCartId := nextCartId + 1;
      assert GetCart(row.id) == Ok(row);
      r := Ok(row);
    }

    /** `PUT /cart/{id}`: `NotFound` for a missing row, `Forbid` for a row of another user, both
        with nothing changed; otherwise the row is revised in place and no other row changes. */
    method UpdateCart(caller: int, now: Timestamp, id: int, cart: Cart) returns (r: Reply<()>)
      requires Valid()
      modifies this
      ensures Valid()
      ensures orders == old(orders) && nextCartId == old(nextCartId) && nextOrderId == old(nextOrderId)
      ensures r.Ok? || r.NotFound? || r.Forbid?
      ensures r.NotFound? <==> forall c | c in old(carts) :: c.id != id
      ensures r.Forbid? <==> exists c | c in old(carts) :: c.id == id && c.userId != caller
      ensures !r.Ok? ==> carts == old(carts)
      ensures r.Ok? ==> exists i :: 0 <= i < |old(carts)| && old(carts)[i].id == id
                                    && old(carts)[i].userId == caller
                                    && carts == old(carts)[i := Revised(old(carts)[i], cart, now)]
      ensures r.Ok? ==> GetCart(id) == Ok(Revised(old(GetCart(id)).value, cart, now))
    {
      var found := FindCart(carts, id);
      if found.None? {
        return NotFound;
      }
      var i := found.value;
      OwnerOfKey(carts, id, i, caller);
      if carts[i].userId != caller {
        return Forbid;
      }
      var row := Revised(carts[i], cart, now);
      ReplaceKeepsKeys(carts, i, row);
      carts := carts[i := row];
      r := Ok(());
    }

    /** `DELETE /cart/{id}`: `NotFound` and `Forbid` as for `UpdateCart`, with nothing changed;
        otherwise exactly that row is removed. */
    method DeleteCart(caller: int, id: int) returns (r: Reply<()>)
      requires Valid()
      modifies this
      ensures Valid()
      ensures orders == old(orders) && nextCartId == old(nextCartId) && nextOrderId == old(nextOrderId)
      ensures r.Ok? || r.NotFound? || r.Forbid?
      ensures r.NotFound? <==> forall c | c in old(carts) :: c.id != id
      ensures r.Forbid? <==> exists c | c in old(carts) :: c.id == id && c.userId != caller
      ensures !r.Ok? ==> carts == old(carts)
      ensures r.Ok? ==> exists i :: 0 <= i < |old(carts)| && old(carts)[i].id == id
                                    && old(carts)[i].userId == caller
                                    && carts == old(carts)[..i] + old(carts)[i + 1..]
      ensures r.Ok? ==> forall c :: c in carts <==> c in old(carts) && c.id != id
      ensures r.Ok? ==> GetCart(id) == NotFound
    {
      var found := FindCart(carts, id);
      if found.None? {
        return NotFound;
      }
      var i := found.value;
      OwnerOfKey(carts, id, i, caller);
      if carts[i].userId != caller {
        return Forbid;
      }
      RemoveAtKeepsUniqueIds(carts, i);
      carts := carts[..i] + carts[i + 1..];
      r := Ok(());
    }

    /** `DELETE /cart/all`: removes the caller's rows and no other; with none, changes nothing. */
    method DeleteAllCarts(caller: int) returns (r: Reply<()>)
      requires Valid()
      modifies this
      ensures Valid()
      ensures r == Ok(())
      ensures orders == old(orders) && nextCartId == old(nextCartId) && nextOrderId == old(nextOrderId)
      ensures carts == ExceptOwnedBy(old(carts), caller)
      ensures OwnedBy(carts, caller) == []
      ensures forall v :: v != caller ==> OwnedBy(carts, v) == OwnedBy(old(carts), v)
      ensures OwnedBy(old(carts), caller) == [] ==> carts == old(carts)
    {
      var userCarts := OwnedBy(carts, caller);
      if |userCarts| > 0 {
        ExceptOwnedByKeepsKeys(carts, caller, nextCartId);
        carts := ExceptOwnedBy(carts, caller);
      }
      forall v {
        ExceptOwnedByKeepsOthers(old(carts), caller, v);
      }
      r := Ok(());
    }

    /** `POST /cart/confirm-checkout`: `BadRequest` for an empty cart; `Failed` when sending the
        confirmation mail throws, which happens before anything is stored; otherwise one new
        order for the caller, with the cart total and a copy of each cart row, and the caller's
        rows removed. Returns the new order's key. */
    method Checkout(caller: int, now: Timestamp, mailSent: bool) returns (r: Reply<int>)
      requires Valid()
      modifies this
      ensures Valid()
      ensures nextCartId == old(nextCartId)
      ensures OwnedBy(old(carts), caller) == [] ==> r == BadRequest(NoItemsMessage)
      ensures OwnedBy(old(carts), caller) != [] && !mailSent ==> r == Failed
      ensures !r.Ok? ==> carts == old(carts) && orders == old(orders) && nextOrderId == old(nextOrderId)
      ensures OwnedBy(old(carts), caller) != [] && mailSent ==>
        && r == Ok(old(nextOrderId))
        && orders == old(orders) + [Order(old(nextOrderId), now, CartTotal(OwnedBy(old(carts), caller)),
                                          caller, DetailsOf(OwnedBy(old(carts), caller)))]
        && carts == ExceptOwnedBy(old(carts), caller)
        && nextOrderId == old(nextOrderId) + 1
      ensures forall v :: v != caller ==> OwnedBy(carts, v) == OwnedBy(old(carts), v)
    {
      var userCarts := OwnedBy(carts, caller);
      if |userCarts| == 0 {
        return BadRequest(NoItemsMessage);
      }
      // the confirmation mail is sent here, before the order is stored
      if !mailSent {
        return Failed;
      }
      var details: seq<OrderDetail> := [];
      for i := 0 to |userCarts|
        invariant |details| == i
        invariant forall k :: 0 <= k < i ==> CopiedFrom(details[k], userCarts[k])
      {
        var cart := userCarts[i];
        details := details + [OrderDetail(cart.service, cart.participants, cart.quantity,
                                          cart.date, cart.time, cart.price)];
      }
      DetailsOfIsTheCopy(userCarts, details);
      DetailsKeepTotal(userCarts, details);
      var order := Order(nextOrderId, now, CartTotal(userCarts), caller, details);
      AppendOrderKeepsKeys(orders, order);
      orders := orders + [order];
      ExceptOwnedByKeepsKeys(carts, caller, nextCartId);
      carts := ExceptOwnedBy(carts, caller);
      r := Ok(order.id);
      nextOrderId := nextOrderId + 1;
      forall v | v != caller {
        ExceptOwnedByKeepsOthers(old(carts), caller, v);
      }
    }

    /** `POST /cart/create-checkout-session`, up to the call to the payment gateway: `BadRequest`
        for an empty cart, `Failed` when a price does not convert to cents, otherwise one line item
        per cart row of the caller, in order. Nothing is stored. */
    function CreateCheckoutSession(caller: int): (r: Reply<seq<LineItem>>)
      reads this
      ensures r.Ok? || r.BadRequest? || r.Failed?
      ensures r.BadRequest? <==> OwnedBy(carts, caller) == []
      ensures r.BadRequest? ==> r.message == NoItemsMessage
      ensures r.Failed? <==> exists c | c in OwnedBy(carts, caller) :: MinorUnits(c.price).None?
      ensures r.Ok? ==> |r.value| == |OwnedBy(carts, caller)|
                        && forall i :: 0 <= i < |r.value| ==> ChargesFor(r.value[i], OwnedBy(carts, caller)[i])
    {
      var userCarts := OwnedBy(carts, caller);
      if |userCarts| == 0 then BadRequest(NoItemsMessage)
      else
        match LineItemsOf(userCarts)
        case None => Failed
        case Some(items) => Ok(items)
    }
  }

  /** A booking from start to finish: one user adds a cart row, checks out, and is left with an
      empty cart and one order that copies the row. */
  method YogaBooking(alice: int, t0: Timestamp, t1: Timestamp, cart: Cart)
    requires cart.price == 25.00
  {
    var store := new Store();
    var added := store.AddCart(alice, t0, cart);
    var row := added.value;
    assert store.carts == [row] && store.orders == [] && store.nextOrderId == 1;
    assert row.userId == alice && row.price == 25.00;
    assert OwnedBy([row], alice) == [row];
    assert ExceptOwnedBy([row], alice) == [];
    assert CartTotal([row]) == 25.00 by {
      assert [row][1..] == [];
    }
    var checkedOut := store.Checkout(alice, t1, true);
    assert checkedOut == Ok(1);
    assert store.carts == [];
    assert |store.orders| == 1 && store.orders[0].totalAmount == 25.00;
    assert |store.orders[0].details| == 1 && CopiedFrom(store.orders[0].details[0], row);
  }

  /** A row just added is listed, with or without a search string that its service contains. */
  method ListingShowsNewRow(alice: int, t0: Timestamp)
  {
    var store := new Store();
    var cart := Cart(0, "Yoga", "Alice", 2, "2024-05-01", "10:00", 25.00, 0, 0, 0);
    var added := store.AddCart(alice, t0, cart);
    var row := added.value;
    assert row in store.carts;
    var all := store.GetAll(None);
    assert row in all;
  }
}
