/**
 The cart aggregate: a user's cart is a sequence of line items whose product ids
 are unique. Two item sequences hold the same cart when they agree on `Keyed`,
 the map from product id to item: the order of the items is not part of a cart.

 The aggregate's own methods (Cart.add_item, Cart.remove_item,
 Cart.update_quantity) live in a file that is not part of this model; the
 functions below give them the behaviour the cart service relies on.
 */
module Carts {

  /** A price. It is copied between cart, cache and store and compared, never computed with. */
  datatype Price = Price(amount: real)

  datatype CartItem = CartItem(productId: int, name: string, price: Price, quantity: int)

  datatype Cart = Cart(userId: string, items: seq<CartItem>)

  /** The product ids occurring in `s`. */
  function Ids(s: seq<CartItem>): set<int>
  {
    set x | x in s :: x.productId
  }

  /** No product id occurs twice: the invariant of a cart and of a stored cart record. */
  predicate UniqueIds(s: seq<CartItem>)
  {
    forall i, j :: 0 <= i < j < |s| ==> s[i].productId != s[j].productId
  }

  /** The cart as a map from product id to item (a later entry wins, which never matters under UniqueIds). */
  function Keyed(s: seq<CartItem>): (m: map<int, CartItem>)
    ensures m.Keys == Ids(s)
    ensures forall p :: p in m ==> m[p].productId == p && m[p] in s
    decreases |s|
  {
    if s == [] then map[]
    else
      var init, last := s[..|s| - 1], s[|s| - 1];
      assert s == init + [last];
      Keyed(init)[last.productId := last]
  }

  /** The update of a stored row from an incoming item: name, price and quantity are copied, the row keeps its product id. */
  function CopyFields(row: CartItem, from: CartItem): (r: CartItem)
    ensures r.productId == row.productId
    ensures row.productId == from.productId ==> r == from
  {
    row.(name := from.name, price := from.price, quantity := from.quantity)
  }

  /** Every entry carrying x's product id takes x's name, price and quantity; the other entries stay where they are. */
  function Overwrite(s: seq<CartItem>, x: CartItem): seq<CartItem>
  {
    seq(|s|, i requires 0 <= i < |s| => if s[i].productId == x.productId then CopyFields(s[i], x) else s[i])
  }

  /** The entries of `s` whose product id is not in `drop`, in their order. */
  function Without(s: seq<CartItem>, drop: set<int>): (r: seq<CartItem>)
    ensures forall x :: x in r <==> x in s && x.productId !in drop
    ensures Ids(r) == Ids(s) - drop
    ensures UniqueIds(s) ==> UniqueIds(r)
    ensures Ids(s) !! drop ==> r == s
    decreases |s|
  {
    if s == [] then []
    else
      var init, last := s[..|s| - 1], s[|s| - 1];
      assert s == init + [last];
      var rest := Without(init, drop);
      if last.productId in drop then rest
      else
        assert UniqueIds(s) ==> last.productId !in Ids(init);
        UniqueAppend(rest, last);
        rest + [last]
  }

  lemma UniqueAppend(s: seq<CartItem>, x: CartItem)
    ensures UniqueIds(s) && x.productId !in Ids(s) ==> UniqueIds(s + [x])
    ensures Ids(s + [x]) == Ids(s) + {x.productId}
  {
    var t := s + [x];
    assert forall y :: y in t <==> y in s || y == x;
    if UniqueIds(s) && x.productId !in Ids(s) {
      forall i, j | 0 <= i < j < |t| ensures t[i].productId != t[j].productId {
        if j == |s| {
          assert t[i] == s[i];
        }
      }
    }
  }

  /** In a cart, an entry's product does not occur among the entries before it. */
  lemma UniquePrefix(s: seq<CartItem>, k: nat)
    requires UniqueIds(s) && k < |s|
    ensures s[k].productId !in Ids(s[..k])
    ensures s[..k + 1] == s[..k] + [s[k]]
  {
    forall x | x in s[..k] ensures x.productId != s[k].productId {
      var i :| 0 <= i < k && s[..k][i] == x;
      assert s[i] == x;
    }
  }

  /** A cart without its last entry is a cart, and the last entry's product is not in it. */
  lemma UniqueInit(s: seq<CartItem>)
    requires UniqueIds(s) && s != []
    ensures UniqueIds(s[..|s| - 1]) && s[|s| - 1].productId !in Ids(s[..|s| - 1])
    ensures s == s[..|s| - 1] + [s[|s| - 1]]
  {
    UniquePrefix(s, |s| - 1);
  }

  /** A cart without its first entry is a cart. */
  lemma UniqueTail(s: seq<CartItem>)
    requires UniqueIds(s) && s != []
    ensures UniqueIds(s[1..])
  {
    var t := s[1..];
    forall i, j | 0 <= i < j < |t| ensures t[i].productId != t[j].productId {
      assert t[i] == s[i + 1] && t[j] == s[j + 1];
    }
  }

  /** Two entries of a cart with the same product id are the same entry. */
  lemma SameIdSameItem(s: seq<CartItem>, x: CartItem, y: CartItem)
    requires UniqueIds(s) && x in s && y in s && x.productId == y.productId
    ensures x == y
  {
    var i :| 0 <= i < |s| && s[i] == x;
    var j :| 0 <= j < |s| && s[j] == y;
    assert i == j;
  }

  /** In a cart, the keyed view maps each entry's product id to that entry. */
  lemma KeyedAt(s: seq<CartItem>, x: CartItem)
    requires UniqueIds(s) && x in s
    ensures x.productId in Keyed(s) && Keyed(s)[x.productId] == x
  {
    var m := Keyed(s);
    assert x.productId in Ids(s);
    SameIdSameItem(s, m[x.productId], x);
  }

  /** A map that agrees with every entry of a cart, on exactly its ids, is its keyed view. */
  lemma KeyedIs(s: seq<CartItem>, m: map<int, CartItem>)
    requires UniqueIds(s) && m.Keys == Ids(s)
    requires forall x :: x in s ==> m[x.productId] == x
    ensures Keyed(s) == m
  {
    forall p | p in m ensures Keyed(s)[p] == m[p] {
      var x := Keyed(s)[p];
      KeyedAt(s, x);
    }
  }

  /** Two carts with the same entries have the same keyed view, whatever their order. */
  lemma KeyedSame(a: seq<CartItem>, b: seq<CartItem>)
    requires UniqueIds(a) && UniqueIds(b)
    requires forall x :: x in a <==> x in b
    ensures Keyed(a) == Keyed(b)
  {
    assert Ids(a) == Ids(b);
    forall x | x in a ensures Keyed(b)[x.productId] == x {
      KeyedAt(b, x);
    }
    KeyedIs(a, Keyed(b));
  }

  lemma {:induction false} KeyedAppend(s: seq<CartItem>, x: CartItem)
    ensures Keyed(s + [x]) == Keyed(s)[x.productId := x]
  {
    assert (s + [x])[..|s|] == s;
  }

  /** Relabelling entries without touching their product ids keeps the ids and their uniqueness. */
  lemma SameIdsAt(s: seq<CartItem>, r: seq<CartItem>)
    requires |r| == |s| && forall i :: 0 <= i < |s| ==> r[i].productId == s[i].productId
    ensures Ids(r) == Ids(s)
    ensures UniqueIds(s) ==> UniqueIds(r)
  {
    forall p | p in Ids(s) ensures p in Ids(r) {
      var i :| 0 <= i < |s| && s[i].productId == p;
      assert r[i] in r;
    }
    forall p | p in Ids(r) ensures p in Ids(s) {
      var i :| 0 <= i < |r| && r[i].productId == p;
      assert s[i] in s;
    }
  }

  /** Overwriting a product that is in the cart changes that entry of the keyed view only. */
  lemma OverwriteKeyed(s: seq<CartItem>, x: CartItem)
    requires UniqueIds(s) && x.productId in Ids(s)
    ensures UniqueIds(Overwrite(s, x)) && Ids(Overwrite(s, x)) == Ids(s)
    ensures Keyed(Overwrite(s, x)) == Keyed(s)[x.productId := x]
  {
    var r := Overwrite(s, x);
    OverwriteInPlace(s, x);
    SameIdsAt(s, r);
    KeysUpdate(Keyed(s), x.productId, x);
    OverwriteAgrees(s, x);
    KeyedIs(r, Keyed(s)[x.productId := x]);
  }

  lemma OverwriteInPlace(s: seq<CartItem>, x: CartItem)
    ensures |Overwrite(s, x)| == |s| && forall i :: 0 <= i < |s| ==> Overwrite(s, x)[i].productId == s[i].productId
  {
  }

  lemma KeysUpdate<K, V>(m: map<K, V>, k: K, v: V)
    requires k in m
    ensures m[k := v].Keys == m.Keys
  {
  }

  lemma OverwriteAgrees(s: seq<CartItem>, x: CartItem)
    requires UniqueIds(s)
    ensures forall y :: y in Overwrite(s, x) ==> Keyed(s)[x.productId := x][y.productId] == y
  {
    var r := Overwrite(s, x);
    var m := Keyed(s)[x.productId := x];
    forall y | y in r ensures m[y.productId] == y {
      var i :| 0 <= i < |r| && r[i] == y;
      if s[i].productId != x.productId {
        KeyedAt(s, s[i]);
      }
    }
  }

  /** Setting the quantity of a product that is in the cart changes that entry of the keyed view only. */
  lemma SetQuantityKeyed(s: seq<CartItem>, productId: int, quantity: int)
    requires UniqueIds(s) && productId in Ids(s)
    ensures UniqueIds(SetQuantity(s, productId, quantity)) && Ids(SetQuantity(s, productId, quantity)) == Ids(s)
    ensures Keyed(SetQuantity(s, productId, quantity)) == Keyed(s)[productId := Keyed(s)[productId].(quantity := quantity)]
  {
    var r := SetQuantity(s, productId, quantity);
    SetQuantityInPlace(s, productId, quantity);
    SameIdsAt(s, r);
    KeysUpdate(Keyed(s), productId, Keyed(s)[productId].(quantity := quantity));
    SetQuantityAgrees(s, productId, quantity);
    KeyedIs(r, Keyed(s)[productId := Keyed(s)[productId].(quantity := quantity)]);
  }

  lemma SetQuantityInPlace(s: seq<CartItem>, productId: int, quantity: int)
    ensures |SetQuantity(s, productId, quantity)| == |s|
    ensures forall i :: 0 <= i < |s| ==> SetQuantity(s, productId, quantity)[i].productId == s[i].productId
  {
  }

  lemma SetQuantityAgrees(s: seq<CartItem>, productId: int, quantity: int)
    requires UniqueIds(s) && productId in Ids(s)
    ensures forall y :: y in SetQuantity(s, productId, quantity) ==>
      Keyed(s)[productId := Keyed(s)[productId].(quantity := quantity)][y.productId] == y
  {
    var r := SetQuantity(s, productId, quantity);
    forall y | y in r ensures Keyed(s)[productId := Keyed(s)[productId].(quantity := quantity)][y.productId] == y {
      var i :| 0 <= i < |r| && r[i] == y;
      SetQuantityAt(s, productId, quantity, i);
    }
  }

  /** The entry at `i` after setting the quantity is what the updated keyed view holds for its product. */
  lemma SetQuantityAt(s: seq<CartItem>, productId: int, quantity: int, i: nat)
    requires UniqueIds(s) && productId in Ids(s) && i < |s|
    ensures Keyed(s)[productId := Keyed(s)[productId].(quantity := quantity)][SetQuantity(s, productId, quantity)[i].productId] ==
      SetQuantity(s, productId, quantity)[i]
  {
    KeyedAt(s, s[i]);
  }

  /** Cart.add_item as the service relies on it: an entry with the same product id is replaced in place (last write wins, quantities are not added); otherwise the item is appended. */
  function AddItem(c: Cart, x: CartItem): (r: Cart)
    requires UniqueIds(c.items)
    ensures r.userId == c.userId && UniqueIds(r.items)
    ensures Keyed(r.items) == Keyed(c.items)[x.productId := x]
    ensures Ids(r.items) == Ids(c.items) + {x.productId}
  {
    if x.productId in Ids(c.items) then
      OverwriteKeyed(c.items, x);
      Cart(c.userId, Overwrite(c.items, x))
    else
      UniqueAppend(c.items, x);
      KeyedAppend(c.items, x);
      Cart(c.userId, c.items + [x])
  }

  /** Cart.remove_item: the entry for `productId`, if any, is dropped; the others keep their order. */
  function RemoveItem(c: Cart, productId: int): (r: Cart)
    requires UniqueIds(c.items)
    ensures r.userId == c.userId && UniqueIds(r.items)
    ensures Keyed(r.items) == Keyed(c.items) - {productId}
    ensures Ids(r.items) == Ids(c.items) - {productId}
  {
    var s := Without(c.items, {productId});
    forall y | y in s ensures (Keyed(c.items) - {productId})[y.productId] == y {
      KeyedAt(c.items, y);
    }
    KeyedIs(s, Keyed(c.items) - {productId});
    Cart(c.userId, s)
  }

  /** The entry for `productId` gets quantity `quantity`; nothing else changes. */
  function SetQuantity(s: seq<CartItem>, productId: int, quantity: int): seq<CartItem>
  {
    seq(|s|, i requires 0 <= i < |s| => if s[i].productId == productId then s[i].(quantity := quantity) else s[i])
  }

  /**
   Cart.update_quantity: when the product is in the cart, its quantity becomes
   `quantity` (which may be zero or negative: the aggregate is assumed not to
   check it) and the flag is true; otherwise the cart is returned unchanged with false.
   */
  function UpdateQuantity(c: Cart, productId: int, quantity: int): (r: (Cart, bool))
    requires UniqueIds(c.items)
    ensures r.1 <==> productId in Ids(c.items)
    ensures r.0.userId == c.userId && UniqueIds(r.0.items) && Ids(r.0.items) == Ids(c.items)
    ensures r.1 ==> Keyed(r.0.items) == Keyed(c.items)[productId := Keyed(c.items)[productId].(quantity := quantity)]
    ensures !r.1 ==> r.0 == c
  {
    if productId in Ids(c.items) then
      SetQuantityKeyed(c.items, productId, quantity);
      (Cart(c.userId, SetQuantity(c.items, productId, quantity)), true)
    else
      (c, false)
  }

}
