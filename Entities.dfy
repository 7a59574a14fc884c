/** The rows of the Carts and Orders tables, and the queries the controller runs on the Carts table. */
module Entities {
  import opened Results

  /** A point in time (`DateTime`), as a tick count. */
  type Timestamp = int

  /** A row of the Carts table: one booked service waiting for checkout. `date` and `time` are the
      booking's date and time slot, copied around verbatim. */
  datatype Cart = Cart(
    id: int,
    service: string,
    participants: string,
    quantity: int,
    date: string,
    time: string,
    price: real,
    createdAt: Timestamp,
    updatedAt: Timestamp,
    userId: int)

  /** A line of an order, copied from a cart row at checkout. */
  datatype OrderDetail = OrderDetail(
    service: string,
    participants: string,
    quantity: int,
    date: string,
    time: string,
    price: real)

  /** A row of the Orders table with its details. */
  datatype Order = Order(
    id: int,
    orderDate: Timestamp,
    totalAmount: real,
    userId: int,
    details: seq<OrderDetail>)

  /** No two cart rows share a primary key. */
  ghost predicate UniqueIds(t: seq<Cart>) {
    forall i, j :: 0 <= i < j < |t| ==> t[i].id != t[j].id
  }

  /** No two orders share a primary key. */
  ghost predicate UniqueOrderIds(t: seq<Order>) {
    forall i, j :: 0 <= i < j < |t| ==> t[i].id != t[j].id
  }

  /** Every key is at least 1 and below `next`, the key the table hands out next. */
  ghost predicate IdsBelow(t: seq<Cart>, next: int) {
    forall c | c in t :: 1 <= c.id < next
  }

  /** Every order key is at least 1 and below `next`. */
  ghost predicate OrderIdsBelow(t: seq<Order>, next: int) {
    forall o | o in t :: 1 <= o.id < next
  }

  /** The position of the first row whose primary key is `id` (`Find`, `FirstOrDefault`). */
  function FindCart(t: seq<Cart>, id: int): (r: Option<nat>)
    ensures r.None? <==> forall c | c in t :: c.id != id
    ensures r.Some? ==> r.value < |t| && t[r.value].id == id
    ensures r.Some? ==> forall k :: 0 <= k < r.value ==> t[k].id != id
  {
    if t == [] then None
    else if t[0].id == id then Some(0)
    else
      match FindCart(t[1..], id)
      case None => None
      case Some(k) => Some(k + 1)
  }

  /** With unique keys, the row found for `id` is the only row with that key. */
  lemma FindCartIsTheRow(t: seq<Cart>, id: int, i: int)
    requires UniqueIds(t) && 0 <= i < |t| && t[i].id == id
    ensures FindCart(t, id) == Some(i)
  {
    var r := FindCart(t, id);
    assert t[i] in t;
  }

  /** With unique keys, the owner of the row at `i` is the owner of every row with its key. */
  lemma OwnerOfKey(t: seq<Cart>, id: int, i: int, caller: int)
    requires UniqueIds(t) && 0 <= i < |t| && t[i].id == id
    ensures (exists c | c in t :: c.id == id && c.userId != caller) <==> t[i].userId != caller
    ensures (exists c | c in t :: c.id == id && c.userId == caller) <==> t[i].userId == caller
  {
    assert t[i] in t;
    forall c | c in t && c.id == id ensures c == t[i] {
      var k :| 0 <= k < |t| && t[k] == c;
    }
  }

  /** Overwriting a row with one of the same key keeps the keys, unique and where they were. */
  lemma ReplaceKeepsKeys(t: seq<Cart>, i: int, row: Cart)
    requires UniqueIds(t) && 0 <= i < |t| && row.id == t[i].id
    ensures UniqueIds(t[i := row])
    ensures forall c | c in t[i := row] :: c in t || c == row
    ensures FindCart(t[i := row], row.id) == Some(i)
  {
    var r := t[i := row];
    assert forall k :: 0 <= k < |r| ==> r[k].id == t[k].id;
    forall c | c in r ensures c in t || c == row {
      var k :| 0 <= k < |r| && r[k] == c;
      if k != i { assert t[k] == c; }
    }
    FindCartIsTheRow(r, row.id, i);
  }

  /** Appending a row with the next key keeps the keys unique, and the new row is found by its key. */
  lemma AppendKeepsKeys(t: seq<Cart>, row: Cart)
    requires UniqueIds(t) && IdsBelow(t, row.id) && 1 <= row.id
    ensures UniqueIds(t + [row]) && IdsBelow(t + [row], row.id + 1)
    ensures FindCart(t + [row], row.id) == Some(|t|)
  {
    var r := t + [row];
    forall i, j | 0 <= i < j < |r| ensures r[i].id != r[j].id {
      assert r[i] == t[i];
      if j < |t| { assert r[j] == t[j]; } else { assert t[i] in t; }
    }
    FindCartIsTheRow(r, row.id, |t|);
  }

  /** Removing one row keeps the primary keys unique and drops exactly the rows with its key. */
  lemma RemoveAtKeepsUniqueIds(t: seq<Cart>, i: int)
    requires UniqueIds(t) && 0 <= i < |t|
    ensures UniqueIds(t[..i] + t[i + 1..])
    ensures forall c :: c in t[..i] + t[i + 1..] <==> c in t && c.id != t[i].id
  {
    var r := t[..i] + t[i + 1..];
    assert forall k :: 0 <= k < |r| ==> r[k] == if k < i then t[k] else t[k + 1];
    forall c | c in t && c.id != t[i].id ensures c in r {
      var k :| 0 <= k < |t| && t[k] == c;
      if k < i { assert r[k] == c; } else { assert r[k - 1] == c; }
    }
  }

  /** `Where(cart => cart.UserId == u)`: the rows owned by `u`, in table order. */
  function OwnedBy(t: seq<Cart>, u: int): (r: seq<Cart>)
    ensures forall c :: c in r <==> c in t && c.userId == u
    ensures |r| <= |t|
  {
    if t == [] then []
    else (if t[0].userId == u then [t[0]] else []) + OwnedBy(t[1..], u)
  }

  /** The table after `RemoveRange` of the rows owned by `u`: every other row, in table order. */
  function ExceptOwnedBy(t: seq<Cart>, u: int): (r: seq<Cart>)
    ensures forall c :: c in r <==> c in t && c.userId != u
    ensures OwnedBy(t, u) == [] ==> r == t
  {
    if t == [] then []
    else
      assert t[0] in t && forall c | c in t[1..] :: c in t;
      (if t[0].userId != u then [t[0]] else []) + ExceptOwnedBy(t[1..], u)
  }

  /** Removing `u`'s rows splits the table in two: nothing is lost and nothing is duplicated. */
  lemma {:induction false} OwnedByPartitions(t: seq<Cart>, u: int)
    ensures multiset(OwnedBy(t, u)) + multiset(ExceptOwnedBy(t, u)) == multiset(t)
  {
    if t != [] {
      var head, tail := [t[0]], t[1..];
      OwnedByPartitions(tail, u);
      assert t == head + tail;
      assert OwnedBy(t, u) == (if t[0].userId == u then head else []) + OwnedBy(tail, u);
      assert ExceptOwnedBy(t, u) == (if t[0].userId != u then head else []) + ExceptOwnedBy(tail, u);
    }
  }

  /** After removing `u`'s rows, `u` owns nothing and every other user owns exactly what they
      owned before, in the same order. */
  lemma {:induction false} ExceptOwnedByKeepsOthers(t: seq<Cart>, u: int, v: int)
    ensures OwnedBy(ExceptOwnedBy(t, u), u) == []
    ensures v != u ==> OwnedBy(ExceptOwnedBy(t, u), v) == OwnedBy(t, v)
  {
    if t != [] {
      ExceptOwnedByKeepsOthers(t[1..], u, v);
      var rest := ExceptOwnedBy(t[1..], u);
      if t[0].userId != u {
        assert ExceptOwnedBy(t, u) == [t[0]] + rest;
        assert ([t[0]] + rest)[1..] == rest;
      } else {
        assert ExceptOwnedBy(t, u) == rest;
      }
    }
  }

  /** Removing rows keeps the primary keys unique and below the next key. */
  lemma ExceptOwnedByKeepsKeys(t: seq<Cart>, u: int, next: int)
    requires UniqueIds(t) && IdsBelow(t, next)
    ensures UniqueIds(ExceptOwnedBy(t, u)) && IdsBelow(ExceptOwnedBy(t, u), next)
  {
    ExceptOwnedByKeepsUniqueIds(t, u);
  }

  lemma {:induction false} ExceptOwnedByKeepsUniqueIds(t: seq<Cart>, u: int)
    requires UniqueIds(t)
    ensures UniqueIds(ExceptOwnedBy(t, u))
  {
    if t != [] {
      UniqueIdsTail(t);
      ExceptOwnedByKeepsUniqueIds(t[1..], u);
      if t[0].userId != u {
        UniqueIdsCons(t[0], ExceptOwnedBy(t[1..], u));
      }
    }
  }

  lemma UniqueIdsTail(t: seq<Cart>)
    requires UniqueIds(t) && t != []
    ensures UniqueIds(t[1..])
    ensures forall c | c in t[1..] :: c.id != t[0].id
  {
    var tail := t[1..];
    forall i, j | 0 <= i < j < |tail| ensures tail[i].id != tail[j].id {
      assert tail[i] == t[i + 1] && tail[j] == t[j + 1];
    }
    forall c | c in tail ensures c.id != t[0].id {
      var k :| 0 <= k < |tail| && tail[k] == c;
      assert t[k + 1] == c;
    }
  }

  lemma UniqueIdsCons(x: Cart, s: seq<Cart>)
    requires UniqueIds(s) && forall c | c in s :: c.id != x.id
    ensures UniqueIds([x] + s)
  {
    var r := [x] + s;
    forall i, j | 0 <= i < j < |r| ensures r[i].id != r[j].id {
      assert r[j] == s[j - 1];
      if i == 0 {
        assert s[j - 1] in s;
      } else {
        assert r[i] == s[i - 1];
      }
    }
  }
}
