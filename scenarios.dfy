/**
 Short client sessions against the Redis client and the cart service, each
 proved from the operations' contracts alone.
 */
module Scenarios {
  import opened Wrappers
  import opened Carts
  import opened Cache
  import opened Service

  /** A snapshot written with `set_data` is what `get_data` reads back. */
  method SetThenGet<V, F(==,!new)>(r: RedisClient<V, F>, key: string, data: V) returns (got: Option<V>)
    requires r.Valid()
    modifies r
    ensures got == Some(data)
  {
    r.SetData(key, data, None);
    got := r.GetData(key);
  }

  /** After `delete_data` the key reads as missing, and every other key reads as before. */
  method DeleteThenGet<V, F(==,!new)>(r: RedisClient<V, F>, key: string, other: string)
      returns (got: Option<V>, kept: Option<V>)
    requires r.Valid() && other != key
    modifies r
    ensures got == None
    ensures kept.Some? <==> other in old(r.master)
    ensures kept.Some? ==> kept.value == old(r.master)[other]
  {
    r.DeleteData(key);
    got := r.GetData(key);
    kept := r.GetData(other);
  }

  /** After `clear_cart` the user's cart reads back empty. */
  method ClearThenGet(service: CartService, userId: string) returns (cart: Cart)
    requires service.Valid()
    modifies service.redis, service.db
    ensures cart.userId == userId && cart.items == []
    ensures service.Valid()
  {
    service.ClearCart(userId);
    cart := service.GetCart(userId);
  }

  /**
   Adding an item and removing its product again: the cart is back where it
   was without the product, and the counter keeps the item's quantity when the
   product was new to the cart (counted twice, taken off once) and is back
   where it was when the product was already there.
   */
  method AddThenRemove(service: CartService, userId: string, item: CartItem) returns (cart: Cart)
    requires service.Valid()
    modifies service.redis, service.db
    ensures service.Valid()
    ensures Keyed(cart.items) == old(service.Contents(userId)) - {item.productId}
    ensures Count(SeqAt(service.redis.hashes, service.productStatsKey), item.productId) ==
      Count(SeqAt(old(service.redis.hashes), service.productStatsKey), item.productId) +
      if item.productId in old(service.Contents(userId)) then 0 else item.quantity
  {
    ghost var counters, contents := service.redis.hashes, service.Contents(userId);
    var added := service.AddItem(userId, item);
    ghost var held := service.Contents(userId);
    assert held == contents[item.productId := item];
    cart := service.RemoveItem(userId, item.productId);
    AddThenRemoveCount(counters, service.productStatsKey, contents, item);
    RemoveAfterSet(contents, item.productId, item);
  }

  lemma RemoveAfterSet<K, V>(m: map<K, V>, k: K, v: V)
    ensures m[k := v] - {k} == m - {k}
  {
  }

  /** The counter arithmetic of `AddThenRemove`. */
  lemma AddThenRemoveCount(hashes: map<string, seq<(int, int)>>, key: string, contents: map<int, CartItem>, item: CartItem)
    ensures Count(SeqAt(Debited(Added(hashes, key, contents, item), key, contents[item.productId := item], item.productId), key),
                  item.productId) ==
      Count(SeqAt(hashes, key), item.productId) + if item.productId in contents then 0 else item.quantity
  {
    var between := Added(hashes, key, contents, item);
    AddedCount(hashes, key, contents, item);
    DebitedCount(between, key, contents[item.productId := item], item.productId);
  }

  /**
   Reading a cart twice with no write in between gives the same cart: a miss
   that finds a record caches it, so the second read is a hit on that snapshot.
   */
  method GetTwice(service: CartService, userId: string) returns (first: Cart, second: Cart)
    requires service.Valid()
    modifies service.redis
    ensures first == second
  {
    first := service.GetCart(userId);
    second := service.GetCart(userId);
  }

  /**
   The counter of a product not yet in the cart, starting from 0, through
   add_item with quantity 3 (save_cart and add_item both count it: 6),
   update_quantity to 1 (4) and remove_item (3).
   */
  lemma DeltaExample(hashes: map<string, seq<(int, int)>>, key: string, contents: map<int, CartItem>, item: CartItem)
    requires item.productId !in contents && item.quantity == 3
    requires Count(SeqAt(hashes, key), item.productId) == 0
    ensures Count(SeqAt(Added(hashes, key, contents, item), key), item.productId) == 6
    ensures Count(SeqAt(Shifted(Added(hashes, key, contents, item), key, contents[item.productId := item], item.productId, 1),
                         key), item.productId) == 4
    ensures Count(SeqAt(Debited(Shifted(Added(hashes, key, contents, item), key, contents[item.productId := item], item.productId, 1),
                                 key, contents[item.productId := item.(quantity := 1)], item.productId), key), item.productId) == 3
  {
    var p := item.productId;
    var added := Added(hashes, key, contents, item);
    var held := contents[p := item];
    var shifted := Shifted(added, key, held, p, 1);
    AddedCount(hashes, key, contents, item);
    ShiftedCount(added, key, held, p, 1);
    DebitedCount(shifted, key, contents[p := item.(quantity := 1)], p);
  }
}
