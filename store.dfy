/**
 The durable store, standing in for the DBCart and DBCartItem tables: a user
 has a cart record (a header row) exactly when `carts` has the user's id as a
 key, and the record's item rows are the sequence stored there. The order of
 that sequence is the order in which the record's rows are read back; it is
 taken to be kept rows first, in their old order, then new rows in insertion
 order.

 Sessions, flushes and commits are not modelled: every operation takes effect
 at once.
 */
module Store {
  import opened Wrappers
  import opened Carts

  class CartStore {
    var carts: map<string, seq<CartItem>>

    /** No record holds two rows for one product. */
    ghost predicate Valid()
      reads this
    {
      forall u :: u in carts ==> UniqueIds(carts[u])
    }

    constructor ()
      ensures Valid() && carts == map[]
    {
      carts := map[];
    }

    /** `DBCart.query.filter_by(user_id=...).first()` together with the record's items. */
    method Load(userId: string) returns (r: Option<seq<CartItem>>)
      requires Valid()
      ensures r.Some? <==> userId in carts
      ensures r.Some? ==> r.value == carts[userId] && UniqueIds(r.value)
    {
      if userId in carts {
        r := Some(carts[userId]);
      } else {
        r := None;
      }
    }

    /** A new header row for a user that has none; it owns no items yet. */
    method CreateHeader(userId: string)
      requires Valid() && userId !in carts
      modifies this
      ensures Valid() && carts == old(carts)[userId := []]
    {
      carts := carts[userId := []];
    }

    /** The in-place update of the row for item's product: name, price and quantity are assigned. */
    method UpdateRow(userId: string, item: CartItem)
      requires Valid() && userId in carts && item.productId in Ids(carts[userId])
      modifies this
      ensures Valid() && carts == old(carts)[userId := Overwrite(old(carts)[userId], item)]
    {
      OverwriteKeyed(carts[userId], item);
      carts := carts[userId := Overwrite(carts[userId], item)];
    }

    /** A new row for a product the record does not hold yet. */
    method InsertRow(userId: string, item: CartItem)
      requires Valid() && userId in carts && item.productId !in Ids(carts[userId])
      modifies this
      ensures Valid() && carts == old(carts)[userId := old(carts)[userId] + [item]]
    {
      UniqueAppend(carts[userId], item);
      carts := carts[userId := carts[userId] + [item]];
    }

    /** The deletion of the row for one product (nothing happens when there is none). */
    method DeleteRow(userId: string, productId: int)
      requires Valid() && userId in carts
      modifies this
      ensures Valid() && carts == old(carts)[userId := Without(old(carts)[userId], {productId})]
    {
      carts := carts[userId := Without(carts[userId], {productId})];
    }

    /** The deletion of a header row, which cascades to all of its item rows. */
    method DeleteCart(userId: string)
      requires Valid()
      modifies this
      ensures Valid() && carts == old(carts) - {userId}
    {
      carts := carts - {userId};
    }
  }
}
