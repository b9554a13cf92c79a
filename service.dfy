/**
 The cart service: the cache-aside protocol over the Redis client and the
 durable store, and the popularity counters it keeps in the hash at
 `productStatsKey` (one field per product id; `str(product_id)` is injective,
 so the field is the id itself).

 The invariant `Mirrors` is what cache-aside is meant to keep: whenever the
 cache holds a snapshot of a user's cart, the user has a stored record and the
 snapshot holds exactly the stored items.
 */
module Service {
  import opened Wrappers
  import opened Carts
  import opened Store
  import opened Ranking
  import opened Cache
  import opened Reconciliation

  /** `_get_cart_key`: the prefix followed by the user id. */
  function CartKey(prefix: string, userId: string): (k: string)
    ensures |k| == |prefix| + |userId|
    ensures k[..|prefix|] == prefix && k[|prefix|..] == userId
  {
    prefix + userId
  }

  /** Distinct users have distinct cache keys. */
  lemma CartKeyInjective(prefix: string, u: string, v: string)
    ensures CartKey(prefix, u) == CartKey(prefix, v) <==> u == v
  {
  }

  /**
   Some user's cache key is the stats key exactly when the stats key starts
   with the cart prefix. A SET on that user's cart would overwrite the stats
   hash and a DEL would delete it, so the service is built only with keys
   that cannot meet.
   */
  lemma StatsKeyClash(prefix: string, statsKey: string)
    ensures prefix <= statsKey <==> exists u :: CartKey(prefix, u) == statsKey
  {
    if prefix <= statsKey {
      assert CartKey(prefix, statsKey[|prefix|..]) == statsKey;
    }
  }

  /** Every cached cart snapshot agrees with the user's stored record. */
  ghost predicate Mirrors(cache: map<string, Cart>, store: map<string, seq<CartItem>>, prefix: string)
  {
    forall u :: CartKey(prefix, u) in cache ==> MirrorsAt(cache, store, prefix, u)
  }

  /** Writing a user's cart to the cache restores the invariant once the cart is what is stored for the user. */
  lemma MirrorWrite(cache: map<string, Cart>, before: map<string, seq<CartItem>>, after: map<string, seq<CartItem>>,
                    prefix: string, userId: string, c: Cart)
    requires Mirrors(cache, before, prefix)
    requires userId in after && after == before[userId := after[userId]]
    requires c.userId == userId && UniqueIds(c.items) && Keyed(c.items) == Keyed(after[userId])
    ensures Mirrors(cache[CartKey(prefix, userId) := c], after, prefix)
  {
    forall u | CartKey(prefix, u) in cache[CartKey(prefix, userId) := c]
      ensures MirrorsAt(cache[CartKey(prefix, userId) := c], after, prefix, u)
    {
      CartKeyInjective(prefix, u, userId);
      if u != userId {
        assert MirrorsAt(cache, before, prefix, u);
      }
    }
  }

  /** The invariant for one user. */
  ghost predicate MirrorsAt(cache: map<string, Cart>, store: map<string, seq<CartItem>>, prefix: string, u: string)
    requires CartKey(prefix, u) in cache
  {
    u in store && cache[CartKey(prefix, u)].userId == u &&
    UniqueIds(cache[CartKey(prefix, u)].items) &&
    Keyed(cache[CartKey(prefix, u)].items) == Keyed(store[u])
  }

  /** Removing a user's record and cache entry together keeps the invariant. */
  lemma MirrorClear(cache: map<string, Cart>, store: map<string, seq<CartItem>>, prefix: string, userId: string)
    requires Mirrors(cache, store, prefix)
    ensures Mirrors(cache - {CartKey(prefix, userId)}, store - {userId}, prefix)
  {
    forall u | CartKey(prefix, u) in cache - {CartKey(prefix, userId)}
      ensures u in store - {userId}
    {
      CartKeyInjective(prefix, u, userId);
    }
  }

  /**
   The counters after `add_item`: save_cart raises a product new to the stored
   cart by the item's quantity, and add_item then raises it by the quantity
   again; a product already stored is raised once.
   */
  function Added(hashes: map<string, seq<(int, int)>>, key: string, contents: map<int, CartItem>, item: CartItem)
    : map<string, seq<(int, int)>>
  {
    if item.productId in contents
    then Incremented(hashes, key, item.productId, item.quantity)
    else Incremented(Incremented(hashes, key, item.productId, item.quantity), key, item.productId, item.quantity)
  }

  /** `add_item` raises a new product's counter by twice the quantity, a stored one's by the quantity, and no other. */
  lemma AddedCount(hashes: map<string, seq<(int, int)>>, key: string, contents: map<int, CartItem>, item: CartItem)
    ensures Count(SeqAt(Added(hashes, key, contents, item), key), item.productId) ==
      Count(SeqAt(hashes, key), item.productId) + if item.productId in contents then item.quantity else 2 * item.quantity
    ensures forall g :: g != item.productId ==>
      Count(SeqAt(Added(hashes, key, contents, item), key), g) == Count(SeqAt(hashes, key), g)
    ensures forall k :: k != key ==> SeqAt(Added(hashes, key, contents, item), k) == SeqAt(hashes, k)
  {
    var p, q := item.productId, item.quantity;
    var once := Incremented(hashes, key, p, q);
    IncrementedCount(hashes, key, p, q);
    if p !in contents {
      assert Added(hashes, key, contents, item) == Incremented(once, key, p, q);
      IncrementedCount(once, key, p, q);
    }
  }

  /**
   The counters after `remove_item`: the product's counter falls by the
   quantity the stored cart held, when it held the product.
   */
  function Debited(hashes: map<string, seq<(int, int)>>, key: string, contents: map<int, CartItem>, productId: int)
    : map<string, seq<(int, int)>>
  {
    if productId in contents then Incremented(hashes, key, productId, -contents[productId].quantity) else hashes
  }

  /** `remove_item` takes the product's quantity off its counter and touches no other counter. */
  lemma DebitedCount(hashes: map<string, seq<(int, int)>>, key: string, contents: map<int, CartItem>, productId: int)
    ensures Count(SeqAt(Debited(hashes, key, contents, productId), key), productId) ==
      Count(SeqAt(hashes, key), productId) - if productId in contents then contents[productId].quantity else 0
    ensures forall g :: g != productId ==>
      Count(SeqAt(Debited(hashes, key, contents, productId), key), g) == Count(SeqAt(hashes, key), g)
    ensures forall k :: k != key ==> SeqAt(Debited(hashes, key, contents, productId), k) == SeqAt(hashes, k)
  {
    var after := Debited(hashes, key, contents, productId);
    if productId in contents {
      var q := contents[productId].quantity;
      assert after == Incremented(hashes, key, productId, -q);
      IncrementedCount(hashes, key, productId, -q);
    } else {
      assert after == hashes;
    }
  }

  /** When the cart holds the product, `Debited` is one HINCRBY by minus its quantity. */
  lemma DebitedHeld(hashes: map<string, seq<(int, int)>>, key: string, contents: map<int, CartItem>, productId: int, amount: int)
    requires productId in contents && contents[productId].quantity == amount
    ensures Debited(hashes, key, contents, productId) == Incremented(hashes, key, productId, -amount)
  {
  }

  /** When the cart lacks the product, `Debited` changes nothing. */
  lemma DebitedAbsent(hashes: map<string, seq<(int, int)>>, key: string, contents: map<int, CartItem>, productId: int)
    requires productId !in contents
    ensures Debited(hashes, key, contents, productId) == hashes
  {
  }

  /**
   The counters after `update_quantity`: when the stored cart holds the
   product, its counter moves by the new quantity minus the held one (no
   HINCRBY at all when they are equal); otherwise nothing moves.
   */
  function Shifted(hashes: map<string, seq<(int, int)>>, key: string, contents: map<int, CartItem>, productId: int, quantity: int)
    : map<string, seq<(int, int)>>
  {
    if productId in contents && quantity != contents[productId].quantity
    then Incremented(hashes, key, productId, quantity - contents[productId].quantity)
    else hashes
  }

  /** `update_quantity` leaves the product's counter moved to follow the new quantity, and no other counter moved. */
  lemma ShiftedCount(hashes: map<string, seq<(int, int)>>, key: string, contents: map<int, CartItem>, productId: int, quantity: int)
    ensures Count(SeqAt(Shifted(hashes, key, contents, productId, quantity), key), productId) ==
      Count(SeqAt(hashes, key), productId) + if productId in contents then quantity - contents[productId].quantity else 0
    ensures forall g :: g != productId ==>
      Count(SeqAt(Shifted(hashes, key, contents, productId, quantity), key), g) == Count(SeqAt(hashes, key), g)
    ensures forall k :: k != key ==> SeqAt(Shifted(hashes, key, contents, productId, quantity), k) == SeqAt(hashes, k)
  {
    var after := Shifted(hashes, key, contents, productId, quantity);
    if productId in contents && quantity != contents[productId].quantity {
      var d := quantity - contents[productId].quantity;
      assert after == Incremented(hashes, key, productId, d);
      IncrementedCount(hashes, key, productId, d);
    } else {
      assert after == hashes;
    }
  }

  lemma MapSetTwice<K, V>(m: map<K, V>, k: K, a: V, b: V)
    ensures m[k := a][k := b] == m[k := b]
  {
  }

  /** The counters after save_cart's update pass has bumped each of `items` by its quantity, in order. */
  function BumpEach(hashes: map<string, seq<(int, int)>>, key: string, items: seq<CartItem>): (r: map<string, seq<(int, int)>>)
    ensures r - {key} == hashes - {key}
    ensures items == [] ==> r == hashes
    decreases |items|
  {
    if items == [] then hashes
    else
      var last := items[|items| - 1];
      Incremented(BumpEach(hashes, key, items[..|items| - 1]), key, last.productId, last.quantity)
  }

  lemma BumpEachAppend(hashes: map<string, seq<(int, int)>>, key: string, items: seq<CartItem>, x: CartItem)
    ensures BumpEach(hashes, key, items + [x]) == Incremented(BumpEach(hashes, key, items), key, x.productId, x.quantity)
  {
    assert (items + [x])[..|items|] == items;
  }

  /** Each product among `items` gains its quantity on the counter; every other counter stays. */
  lemma {:induction false} BumpEachCount(hashes: map<string, seq<(int, int)>>, key: string, items: seq<CartItem>, p: int)
    requires UniqueIds(items)
    ensures Count(SeqAt(BumpEach(hashes, key, items), key), p) ==
      Count(SeqAt(hashes, key), p) + (if p in Ids(items) then Keyed(items)[p].quantity else 0)
    decreases |items|
  {
    if items != [] {
      var init, last := items[..|items| - 1], items[|items| - 1];
      UniqueInit(items);
      UniqueAppend(init, last);
      KeyedAppend(init, last);
      BumpEachCount(hashes, key, init, p);
      IncrementedCount(BumpEach(hashes, key, init), key, last.productId, last.quantity);
    }
  }

  /** No item is new to the record: save_cart bumps nothing. */
  lemma NoneFresh(items: seq<CartItem>, stored: set<int>)
    requires Ids(items) <= stored
    ensures Without(items, stored) == []
  {
    var r := Without(items, stored);
    assert r == [] || r[0].productId in Ids(r);
  }

  /** Exactly one item is new to the record: save_cart bumps that one alone. */
  lemma OneFresh(items: seq<CartItem>, stored: set<int>, x: CartItem)
    requires UniqueIds(items) && x in items && Ids(items) - stored == {x.productId}
    ensures Without(items, stored) == [x]
  {
    var r := Without(items, stored);
    assert x in r;
    forall y | y in r ensures y == x {
      assert y.productId in Ids(r);
      SameIdSameItem(r, x, y);
    }
    TwoHeads(r);
  }

  lemma TwoHeads(r: seq<CartItem>)
    ensures |r| > 1 ==> r[0] in r && r[1] in r
  {
  }

  /** The record after the update pass refreshes one more row in place. */
  lemma RefreshStep(start: map<string, seq<CartItem>>, userId: string, rows: seq<CartItem>, visited: seq<CartItem>, x: CartItem)
    requires x.productId in Ids(rows) && x.productId !in Ids(visited)
    ensures userId in start[userId := Staged(rows, visited)]
    ensures x.productId in Ids(Staged(rows, visited))
    ensures start[userId := Staged(rows, visited)][userId := Overwrite(Staged(rows, visited), x)] ==
      start[userId := Staged(rows, visited + [x])]
  {
    StagedIds(rows, visited);
    UpdateStep(rows, visited, x);
    MapSetTwice(start, userId, Staged(rows, visited), Staged(rows, visited + [x]));
  }

  /** The record after the update pass adds one more row. */
  lemma AddStep(start: map<string, seq<CartItem>>, userId: string, rows: seq<CartItem>, visited: seq<CartItem>, x: CartItem)
    requires x.productId !in Ids(rows) && x.productId !in Ids(visited)
    ensures userId in start[userId := Staged(rows, visited)]
    ensures x.productId !in Ids(Staged(rows, visited))
    ensures start[userId := Staged(rows, visited)][userId := Staged(rows, visited) + [x]] ==
      start[userId := Staged(rows, visited + [x])]
  {
    StagedIds(rows, visited);
    InsertStep(rows, visited, x);
    MapSetTwice(start, userId, Staged(rows, visited), Staged(rows, visited + [x]));
  }

  /** The counters after the update pass adds one more row. */
  lemma AddCounted(counters: map<string, seq<(int, int)>>, key: string, rows: seq<CartItem>, visited: seq<CartItem>, x: CartItem)
    requires x.productId !in Ids(rows)
    ensures Incremented(BumpEach(counters, key, Without(visited, Ids(rows))), key, x.productId, x.quantity) ==
      BumpEach(counters, key, Without(visited + [x], Ids(rows)))
  {
    WithoutAppend(visited, x, Ids(rows));
    BumpEachAppend(counters, key, Without(visited, Ids(rows)), x);
  }

  /** What save_cart bumps when add_item saves: the added product alone, and only when it had no row. */
  lemma AddedFresh(hashes: map<string, seq<(int, int)>>, key: string, rows: seq<CartItem>, items: seq<CartItem>, x: CartItem)
    requires UniqueIds(items) && Keyed(items) == Keyed(rows)[x.productId := x]
    ensures BumpEach(hashes, key, Without(items, Ids(rows))) ==
      if x.productId in Ids(rows) then hashes else Incremented(hashes, key, x.productId, x.quantity)
  {
    assert Ids(items) == Ids(rows) + {x.productId} by {
      assert Keyed(items).Keys == Ids(items) && Keyed(rows).Keys == Ids(rows);
    }
    if x.productId in Ids(rows) {
      NoneFresh(items, Ids(rows));
    } else {
      assert x in items by {
        assert Keyed(items)[x.productId] in items;
      }
      OneFresh(items, Ids(rows), x);
      BumpOne(hashes, key, x);
    }
  }

  lemma BumpOne(hashes: map<string, seq<(int, int)>>, key: string, x: CartItem)
    ensures BumpEach(hashes, key, [x]) == Incremented(hashes, key, x.productId, x.quantity)
  {
    var none: seq<CartItem> := [];
    assert [x][..0] == none;
  }

  /** save_cart bumps nothing when every product of the cart already has a row. */
  lemma NothingFresh(hashes: map<string, seq<(int, int)>>, key: string, rows: seq<CartItem>, items: seq<CartItem>)
    requires Ids(items) <= Ids(rows)
    ensures BumpEach(hashes, key, Without(items, Ids(rows))) == hashes
  {
    NoneFresh(items, Ids(rows));
  }

  /**
   The quantity of the first entry for the product, or 0 when there is none:
   what the search loops of `remove_item` and `update_quantity` find.
   */
  function FirstQuantity(items: seq<CartItem>, productId: int): int
    decreases |items|
  {
    if items == [] then 0
    else if items[0].productId == productId then items[0].quantity
    else FirstQuantity(items[1..], productId)
  }

  /** In a cart, the first entry for a product is its entry; a product the cart lacks reads as 0. */
  lemma {:induction false} FirstQuantityKeyed(items: seq<CartItem>, productId: int)
    requires UniqueIds(items)
    ensures productId in Keyed(items) ==> FirstQuantity(items, productId) == Keyed(items)[productId].quantity
    ensures productId !in Keyed(items) ==> FirstQuantity(items, productId) == 0
    decreases |items|
  {
    if items != [] {
      var head, tail := items[0], items[1..];
      assert items == [head] + tail;
      KeyedAt(items, head);
      if head.productId != productId {
        UniqueTail(items);
        FirstQuantityKeyed(tail, productId);
        assert productId in Ids(items) <==> productId in Ids(tail) by {
          assert forall x :: x in items <==> x == head || x in tail;
        }
        if productId in Ids(tail) {
          var x := Keyed(tail)[productId];
          assert x in items;
          KeyedAt(items, x);
        }
      }
    }
  }

  /** The search loop of `update_quantity`, which stops at the first entry for the product. */
  method HeldQuantity(items: seq<CartItem>, productId: int) returns (q: int)
    ensures q == FirstQuantity(items, productId)
    ensures productId !in Ids(items) ==> q == 0
  {
    q := 0;
    var i := 0;
    while i < |items|
      invariant 0 <= i <= |items| && productId !in Ids(items[..i])
      invariant FirstQuantity(items[i..], productId) == FirstQuantity(items, productId)
    {
      if items[i].productId == productId {
        q := items[i].quantity;
        return;
      }
      assert items[i..][1..] == items[i + 1..];
      assert items[..i + 1] == items[..i] + [items[i]];
      i := i + 1;
    }
    assert items[..|items|] == items;
  }

  class CartService {
    const redis: RedisClient<Cart, int>
    const db: CartStore
    const cartKeyPrefix: string
    const productStatsKey: string
    const cacheTtl: int

    /**
     The components are well formed, the TTL is positive, no cart key can be
     the stats key (`StatsKeyClash`), and the cache mirrors the store.
     */
    ghost predicate Valid()
      reads this, redis, db
    {
      redis.Valid() && db.Valid() && cacheTtl > 0 && !(cartKeyPrefix <= productStatsKey) &&
      Mirrors(redis.master, db.carts, cartKeyPrefix)
    }

    constructor (redis: RedisClient<Cart, int>, db: CartStore, cartKeyPrefix: string, productStatsKey: string, cacheTtl: int)
      requires redis.Valid() && db.Valid() && cacheTtl > 0
      requires Mirrors(redis.master, db.carts, cartKeyPrefix)
      requires !(cartKeyPrefix <= productStatsKey)
      ensures Valid()
      ensures this.redis == redis && this.db == db && this.cartKeyPrefix == cartKeyPrefix
      ensures this.productStatsKey == productStatsKey && this.cacheTtl == cacheTtl
    {
      this.redis := redis;
      this.db := db;
      this.cartKeyPrefix := cartKeyPrefix;
      this.productStatsKey := productStatsKey;
      this.cacheTtl := cacheTtl;
    }

    /** The popularity counters: the hash at the stats key. */
    ghost function Stats(): seq<(int, int)>
      reads this, redis
    {
      SeqAt(redis.hashes, productStatsKey)
    }

    /** The cart stored for a user, keyed by product id (empty without a record). */
    ghost function Contents(userId: string): map<int, CartItem>
      reads this, db
    {
      Keyed(Stored(userId))
    }

    /** The items stored for a user (none without a record). */
    ghost function Stored(userId: string): seq<CartItem>
      reads this, db
    {
      SeqAt(db.carts, userId)
    }

    /**
     `get_cart`: the cached snapshot on a hit; on a miss the stored record,
     which is then cached; an empty cart, cached nowhere, when there is none.
     Whichever path is taken, the cart holds exactly the stored items.
     */
    method GetCart(userId: string) returns (cart: Cart)
      requires Valid()
      modifies redis
      ensures Valid()
      ensures cart.userId == userId && UniqueIds(cart.items)
      ensures Keyed(cart.items) == Keyed(Stored(userId))
      ensures redis.hashes == old(redis.hashes)
      ensures old(CartKey(cartKeyPrefix, userId) in redis.master) ==>
        cart.items == old(redis.master[CartKey(cartKeyPrefix, userId)].items) &&
        redis.master == old(redis.master) && redis.expiry == old(redis.expiry)
      ensures !old(CartKey(cartKeyPrefix, userId) in redis.master) && userId in db.carts ==>
        cart.items == db.carts[userId] &&
        redis.master == old(redis.master)[CartKey(cartKeyPrefix, userId) := cart] &&
        redis.expiry == old(redis.expiry)[CartKey(cartKeyPrefix, userId) := cacheTtl]
      ensures !old(CartKey(cartKeyPrefix, userId) in redis.master) && userId !in db.carts ==>
        cart.items == [] && redis.master == old(redis.master) && redis.expiry == old(redis.expiry)
    {
      var key := CartKey(cartKeyPrefix, userId);
      var cached := redis.GetData(key);
      if cached.Some? {
        assert MirrorsAt(redis.master, db.carts, cartKeyPrefix, userId);
        cart := Cart(userId, cached.value.items);
        return;
      }
      var record := db.Load(userId);
      if record.Some? {
        cart := Cart(userId, record.value);
        ghost var cache := redis.master;
        redis.SetData(key, cart, Some(cacheTtl));
        MirrorWrite(cache, db.carts, db.carts, cartKeyPrefix, userId, cart);
        return;
      }
      cart := Cart(userId, []);
    }

    /** `_update_product_stats`: HINCRBY on the stats hash. */
    method UpdateProductStats(productId: int, quantity: int, ghost counters: map<string, seq<(int, int)>>)
      requires Valid() && redis.hashes == counters
      modifies redis
      ensures Valid()
      ensures redis.hashes == Incremented(counters, productStatsKey, productId, quantity)
      ensures redis.master == old(redis.master) && redis.expiry == old(redis.expiry)
    {
      redis.IncrementCounter(productStatsKey, productId, quantity);
    }


    /**
     `add_item`: the cart as read, with the item added (or replacing the entry
     for its product), saved; then the product's counter rises by the item's
     quantity. When the product had no row, save_cart has already raised it
     once, so a product new to the cart gains twice its quantity.
     */
    method AddItem(userId: string, item: CartItem) returns (cart: Cart)
      requires Valid()
      modifies redis, db
      ensures Valid()
      ensures cart.userId == userId && UniqueIds(cart.items)
      ensures Keyed(cart.items) == old(Contents(userId))[item.productId := item]
      ensures userId in db.carts && db.carts == old(db.carts)[userId := db.carts[userId]]
      ensures Contents(userId) == Keyed(cart.items)
      ensures redis.master == old(redis.master)[CartKey(cartKeyPrefix, userId) := cart]
      ensures redis.expiry == old(redis.expiry)[CartKey(cartKeyPrefix, userId) := cacheTtl]
      ensures redis.hashes == Added(old(redis.hashes), productStatsKey, old(Contents(userId)), item)
    {
      var read := GetCart(userId);
      ghost var rows, counters := Stored(userId), redis.hashes;
      cart := Carts.AddItem(read, item);
      SaveAdded(cart, item, rows);
      UpdateProductStats(item.productId, item.quantity, redis.hashes);
      MapSetTwice(old(redis.master), CartKey(cartKeyPrefix, userId), read, cart);
      MapSetTwice(old(redis.expiry), CartKey(cartKeyPrefix, userId), cacheTtl, cacheTtl);
    }

    /**
     `remove_item`: the product's counter falls by the quantity the cart held
     (when it held the product), then the cart without the product is saved.
     A user without a record gets an empty one.
     */
    method RemoveItem(userId: string, productId: int) returns (cart: Cart)
      requires Valid()
      modifies redis, db
      ensures Valid()
      ensures cart.userId == userId && UniqueIds(cart.items)
      ensures Keyed(cart.items) == old(Contents(userId)) - {productId}
      ensures userId in db.carts && db.carts == old(db.carts)[userId := db.carts[userId]]
      ensures Contents(userId) == Keyed(cart.items)
      ensures redis.master == old(redis.master)[CartKey(cartKeyPrefix, userId) := cart]
      ensures redis.expiry == old(redis.expiry)[CartKey(cartKeyPrefix, userId) := cacheTtl]
      ensures redis.hashes == Debited(old(redis.hashes), productStatsKey, old(Contents(userId)), productId)
    {
      var read := GetCart(userId);
      cart := RemoveRead(read, productId, old(redis.hashes), old(Contents(userId)));
      MapSetTwice(old(redis.master), CartKey(cartKeyPrefix, userId), read, cart);
      MapSetTwice(old(redis.expiry), CartKey(cartKeyPrefix, userId), cacheTtl, cacheTtl);
    }

    /**
     `remove_item` once the cart has been read; `counters` and `contents` are
     the counters and the stored cart as they were found.
     */
    method RemoveRead(read: Cart, productId: int, ghost counters: map<string, seq<(int, int)>>, ghost contents: map<int, CartItem>)
        returns (cart: Cart)
      requires Valid() && UniqueIds(read.items)
      requires Keyed(read.items) == Contents(read.userId) == contents && redis.hashes == counters
      modifies redis, db
      ensures Valid()
      ensures cart.userId == read.userId && UniqueIds(cart.items)
      ensures Keyed(cart.items) == contents - {productId}
      ensures read.userId in db.carts && db.carts == old(db.carts)[read.userId := db.carts[read.userId]]
      ensures Contents(read.userId) == Keyed(cart.items)
      ensures redis.master == old(redis.master)[CartKey(cartKeyPrefix, read.userId) := cart]
      ensures redis.expiry == old(redis.expiry)[CartKey(cartKeyPrefix, read.userId) := cacheTtl]
      ensures redis.hashes == Debited(counters, productStatsKey, contents, productId)
    {
      ghost var rows := Stored(read.userId);
      Debit(read.items, productId, contents);
      cart := Carts.RemoveItem(read, productId);
      assert Keyed(read.items).Keys == Ids(read.items) && Keyed(rows).Keys == Ids(rows);
      SaveKnown(cart, rows);
    }

    /**
     The search loop of `remove_item`: at the first entry for the product, if
     there is one, the counter falls by that entry's quantity and the search
     stops.
     */
    method Debit(items: seq<CartItem>, productId: int, ghost contents: map<int, CartItem>)
      requires Valid() && UniqueIds(items) && Keyed(items) == contents
      modifies redis
      ensures Valid()
      ensures redis.hashes == Debited(old(redis.hashes), productStatsKey, contents, productId)
      ensures redis.master == old(redis.master) && redis.expiry == old(redis.expiry)
    {
      var i := 0;
      while i < |items|
        invariant 0 <= i <= |items| && productId !in Ids(items[..i])
        invariant FirstQuantity(items[i..], productId) == FirstQuantity(items, productId)
        invariant Valid()
        invariant redis.master == old(redis.master) && redis.expiry == old(redis.expiry)
        invariant redis.hashes == old(redis.hashes)
      {
        if items[i].productId == productId {
          FirstQuantityKeyed(items, productId);
          assert productId in contents by { assert items[i] in items; }
          DebitHeld(productId, items[i].quantity, old(redis.hashes), contents);
          return;
        }
        assert items[i..][1..] == items[i + 1..];
        assert items[..i + 1] == items[..i] + [items[i]];
        i := i + 1;
      }
      assert items[..|items|] == items;
      DebitedAbsent(old(redis.hashes), productStatsKey, contents, productId);
    }

    /** The product's counter falls by `amount`, the quantity the cart holds of it. */
    method DebitHeld(productId: int, amount: int, ghost counters: map<string, seq<(int, int)>>, ghost contents: map<int, CartItem>)
      requires Valid() && redis.hashes == counters
      requires productId in contents && contents[productId].quantity == amount
      modifies redis
      ensures Valid()
      ensures redis.hashes == Debited(counters, productStatsKey, contents, productId)
      ensures redis.master == old(redis.master) && redis.expiry == old(redis.expiry)
    {
      UpdateProductStats(productId, -amount, counters);
      DebitedHeld(counters, productStatsKey, contents, productId, amount);
    }

    /**
     `update_quantity`: when the cart holds the product, its quantity is set,
     the cart is saved and the counter moves by the difference (when there is
     one); otherwise nothing is written and the result is None.
     */
    method UpdateQuantity(userId: string, productId: int, quantity: int) returns (r: Option<Cart>)
      requires Valid()
      modifies redis, db
      ensures Valid()
      ensures r.Some? <==> productId in old(Contents(userId))
      ensures r.Some? ==> (r.value.userId == userId && UniqueIds(r.value.items) &&
        Keyed(r.value.items) == old(Contents(userId))[productId := old(Contents(userId))[productId].(quantity := quantity)])
      ensures r.Some? ==> userId in db.carts && db.carts == old(db.carts)[userId := db.carts[userId]]
      ensures r.Some? ==> Contents(userId) == Keyed(r.value.items)
      ensures r.Some? ==> (redis.master == old(redis.master)[CartKey(cartKeyPrefix, userId) := r.value] &&
        redis.expiry == old(redis.expiry)[CartKey(cartKeyPrefix, userId) := cacheTtl])
      ensures r.None? ==> db.carts == old(db.carts)
      ensures redis.hashes == Shifted(old(redis.hashes), productStatsKey, old(Contents(userId)), productId, quantity)
    {
      var read := GetCart(userId);
      r := UpdateRead(read, productId, quantity, old(redis.hashes), old(Contents(userId)));
      if r.Some? {
        MapSetTwice(old(redis.master), CartKey(cartKeyPrefix, userId), read, r.value);
        MapSetTwice(old(redis.expiry), CartKey(cartKeyPrefix, userId), cacheTtl, cacheTtl);
      }
    }

    /**
     `update_quantity` once the cart has been read; `counters` and `contents`
     are the counters and the stored cart as they were found.
     */
    method UpdateRead(read: Cart, productId: int, quantity: int,
                      ghost counters: map<string, seq<(int, int)>>, ghost contents: map<int, CartItem>)
        returns (r: Option<Cart>)
      requires Valid() && UniqueIds(read.items)
      requires Keyed(read.items) == Contents(read.userId) == contents && redis.hashes == counters
      modifies redis, db
      ensures Valid()
      ensures r.Some? <==> productId in contents
      ensures r.Some? ==> (r.value.userId == read.userId && UniqueIds(r.value.items) &&
        Keyed(r.value.items) == contents[productId := contents[productId].(quantity := quantity)])
      ensures r.Some? ==> read.userId in db.carts && db.carts == old(db.carts)[read.userId := db.carts[read.userId]]
      ensures r.Some? ==> Contents(read.userId) == Keyed(r.value.items)
      ensures r.Some? ==> (redis.master == old(redis.master)[CartKey(cartKeyPrefix, read.userId) := r.value] &&
        redis.expiry == old(redis.expiry)[CartKey(cartKeyPrefix, read.userId) := cacheTtl])
      ensures r.None? ==> db.carts == old(db.carts) && redis.master == old(redis.master) && redis.expiry == old(redis.expiry)
      ensures redis.hashes == Shifted(counters, productStatsKey, contents, productId, quantity)
    {
      ghost var rows := Stored(read.userId);
      var current := HeldQuantity(read.items, productId);
      FirstQuantityKeyed(read.items, productId);
      assert Keyed(read.items).Keys == Ids(read.items) && Keyed(rows).Keys == Ids(rows);
      var outcome := Carts.UpdateQuantity(read, productId, quantity);
      var updated, found := outcome.0, outcome.1;
      if found {
        SaveShifted(updated, rows, productId, quantity, current, counters, contents);
        r := Some(updated);
      } else {
        r := None;
      }
    }

    /** The found case of `update_quantity`: save_cart, then the counter update. */
    method SaveShifted(updated: Cart, ghost rows: seq<CartItem>, productId: int, quantity: int, current: int,
                       ghost counters: map<string, seq<(int, int)>>, ghost contents: map<int, CartItem>)
      requires Valid() && UniqueIds(updated.items) && rows == Stored(updated.userId) && Ids(updated.items) <= Ids(rows)
      requires redis.hashes == counters && productId in contents && contents[productId].quantity == current
      modifies redis, db
      ensures Valid()
      ensures updated.userId in db.carts && db.carts == old(db.carts)[updated.userId := db.carts[updated.userId]]
      ensures Contents(updated.userId) == Keyed(updated.items)
      ensures redis.master == old(redis.master)[CartKey(cartKeyPrefix, updated.userId) := updated]
      ensures redis.expiry == old(redis.expiry)[CartKey(cartKeyPrefix, updated.userId) := cacheTtl]
      ensures redis.hashes == Shifted(counters, productStatsKey, contents, productId, quantity)
    {
      SaveKnown(updated, rows);
      ghost var saved := db.carts;
      Shift(productId, quantity, current, counters, contents);
      assert db.carts == saved;
    }

    /**
     The counter update of `update_quantity`: HINCRBY by the new quantity minus
     `current`, the quantity held, skipped when that difference is 0.
     */
    method Shift(productId: int, quantity: int, current: int,
                 ghost counters: map<string, seq<(int, int)>>, ghost contents: map<int, CartItem>)
      requires Valid() && redis.hashes == counters
      requires productId in contents && contents[productId].quantity == current
      modifies redis
      ensures Valid()
      ensures redis.hashes == Shifted(counters, productStatsKey, contents, productId, quantity)
      ensures redis.master == old(redis.master) && redis.expiry == old(redis.expiry)
    {
      var difference := quantity - current;
      if difference != 0 {
        UpdateProductStats(productId, difference, counters);
      }
    }

    /** `clear_cart`: the user's record (with its rows) and the cached cart are deleted; the counters stay. */
    method ClearCart(userId: string)
      requires Valid()
      modifies redis, db
      ensures Valid()
      ensures db.carts == old(db.carts) - {userId} && Contents(userId) == map[]
      ensures redis.master == old(redis.master) - {CartKey(cartKeyPrefix, userId)}
      ensures redis.expiry == old(redis.expiry) - {CartKey(cartKeyPrefix, userId)}
      ensures redis.hashes == old(redis.hashes)
    {
      var record := db.Load(userId);
      if record.Some? {
        db.DeleteCart(userId);
      } else {
        assert old(db.carts) - {userId} == old(db.carts);
      }
      MirrorClear(redis.master, old(db.carts), cartKeyPrefix, userId);
      redis.DeleteData(CartKey(cartKeyPrefix, userId));
    }

    /** `get_top_products`: the `count` most popular products, most popular first. */
    method GetTopProducts(count: int) returns (r: seq<(int, int)>)
      requires Valid()
      ensures r == TopValues(Stats(), count)
      ensures DistinctFields(r)
    {
      r := redis.GetTopValues(productStatsKey, count);
    }

    /** save_cart for the stored cart with `item` put in: only the item's product can be new to the record. */
    method SaveAdded(cart: Cart, item: CartItem, ghost rows: seq<CartItem>)
      requires Valid() && UniqueIds(cart.items) && rows == Stored(cart.userId)
      requires Keyed(cart.items) == Keyed(rows)[item.productId := item]
      modifies redis, db
      ensures Valid()
      ensures cart.userId in db.carts && db.carts == old(db.carts)[cart.userId := db.carts[cart.userId]]
      ensures Contents(cart.userId) == Keyed(cart.items)
      ensures redis.master == old(redis.master)[CartKey(cartKeyPrefix, cart.userId) := cart]
      ensures redis.expiry == old(redis.expiry)[CartKey(cartKeyPrefix, cart.userId) := cacheTtl]
      ensures redis.hashes ==
        if item.productId in Ids(rows) then old(redis.hashes)
        else Incremented(old(redis.hashes), productStatsKey, item.productId, item.quantity)
    {
      AddedFresh(redis.hashes, productStatsKey, rows, cart.items, item);
      SaveCart(cart);
    }

    /** save_cart for a cart that holds no product the stored one lacks: no counter moves. */
    method SaveKnown(cart: Cart, ghost rows: seq<CartItem>)
      requires Valid() && UniqueIds(cart.items) && rows == Stored(cart.userId) && Ids(cart.items) <= Ids(rows)
      modifies redis, db
      ensures Valid()
      ensures cart.userId in db.carts && db.carts == old(db.carts)[cart.userId := db.carts[cart.userId]]
      ensures Contents(cart.userId) == Keyed(cart.items)
      ensures redis.master == old(redis.master)[CartKey(cartKeyPrefix, cart.userId) := cart]
      ensures redis.expiry == old(redis.expiry)[CartKey(cartKeyPrefix, cart.userId) := cacheTtl]
      ensures redis.hashes == old(redis.hashes)
    {
      NothingFresh(redis.hashes, productStatsKey, rows, cart.items);
      SaveCart(cart);
    }

    /**
     `save_cart`: the update pass, the delete pass and the cache write. The
     user's record ends up as `Reconcile` of the rows found and the cart, which
     holds exactly the cart's items; other users' records are untouched; each
     product that had no row gains its quantity on its counter.
     */
    method SaveCart(cart: Cart)
      requires Valid() && UniqueIds(cart.items)
      modifies redis, db
      ensures Valid()
      ensures db.carts == old(db.carts)[cart.userId := Reconcile(old(Stored(cart.userId)), cart.items)]
      ensures UniqueIds(Stored(cart.userId)) && Contents(cart.userId) == Keyed(cart.items)
      ensures redis.master == old(redis.master)[CartKey(cartKeyPrefix, cart.userId) := cart]
      ensures redis.expiry == old(redis.expiry)[CartKey(cartKeyPrefix, cart.userId) := cacheTtl]
      ensures redis.hashes == BumpEach(old(redis.hashes), productStatsKey, Without(cart.items, Ids(old(Stored(cart.userId)))))
    {
      var userId := cart.userId;
      ghost var cache, before := redis.master, db.carts;
      assert Mirrors(cache, before, cartKeyPrefix);
      Persist(cart);
      ReconcileMatchesCart(SeqAt(before, userId), cart.items);
      MirrorWrite(cache, before, db.carts, cartKeyPrefix, userId, cart);
      redis.SetData(CartKey(cartKeyPrefix, userId), cart, Some(cacheTtl));
    }

    /** The database half of save_cart: find or create the header row, then run both passes. */
    method Persist(cart: Cart)
      requires db.Valid() && redis.Valid() && UniqueIds(cart.items)
      modifies redis, db
      ensures db.Valid() && redis.Valid()
      ensures db.carts == old(db.carts)[cart.userId := Reconcile(old(Stored(cart.userId)), cart.items)]
      ensures redis.master == old(redis.master) && redis.expiry == old(redis.expiry)
      ensures redis.hashes == BumpEach(old(redis.hashes), productStatsKey, Without(cart.items, Ids(old(Stored(cart.userId)))))
    {
      var userId := cart.userId;
      ghost var before := db.carts;
      var record := db.Load(userId);
      var rows: seq<CartItem>;
      if record.None? {
        db.CreateHeader(userId);
        rows := [];
      } else {
        rows := record.value;
        assert before[userId := rows] == before;
      }
      assert rows == SeqAt(before, userId);
      assert db.carts == before[userId := rows];
      ghost var staged, result := Staged(rows, cart.items), Reconcile(rows, cart.items);
      UpdatePass(userId, rows, cart.items);
      MapSetTwice(before, userId, rows, staged);
      assert db.carts == before[userId := staged];
      DeletePass(userId, rows, cart.items);
      MapSetTwice(before, userId, staged, result);
      assert db.carts == before[userId := result];
    }

    /**
     The first loop of save_cart, over the cart's items: a product with a row
     has that row updated in place; a product without one gets a new row and
     its counter rises by the item's quantity.
     */
    method UpdatePass(userId: string, rows: seq<CartItem>, items: seq<CartItem>)
      requires db.Valid() && redis.Valid() && UniqueIds(items)
      requires userId in db.carts && db.carts[userId] == rows
      modifies db, redis
      ensures db.Valid() && redis.Valid()
      ensures db.carts == old(db.carts)[userId := Staged(rows, items)]
      ensures redis.master == old(redis.master) && redis.expiry == old(redis.expiry)
      ensures redis.hashes == BumpEach(old(redis.hashes), productStatsKey, Without(items, Ids(rows)))
    {
      var existing := Ids(rows);
      ghost var start, counters := db.carts, redis.hashes;
      ghost var done: seq<CartItem> := [];
      StagedStart(rows);
      assert start[userId := Staged(rows, done)] == start;
      var k := 0;
      while k < |items|
        invariant 0 <= k <= |items| && done == items[..k]
        invariant Staging(userId, rows, done, start, counters)
        invariant redis.master == old(redis.master) && redis.expiry == old(redis.expiry)
      {
        var item := items[k];
        UniquePrefix(items, k);
        StageItem(userId, existing, rows, done, item, start, counters);
        done := done + [item];
        k := k + 1;
      }
      assert done == items;
    }

    /** The state while the update pass runs, once it has visited `done`. */
    ghost predicate Staging(userId: string, rows: seq<CartItem>, done: seq<CartItem>,
                            start: map<string, seq<CartItem>>, counters: map<string, seq<(int, int)>>)
      reads this, db, redis
    {
      db.Valid() && redis.Valid() &&
      db.carts == start[userId := Staged(rows, done)] &&
      redis.hashes == BumpEach(counters, productStatsKey, Without(done, Ids(rows)))
    }

    /**
     One turn of the update pass: a product with a row has that row updated
     in place; a product without one gets a new row and its counter rises by
     the item's quantity.
     */
    method StageItem(userId: string, existing: set<int>, ghost rows: seq<CartItem>, ghost done: seq<CartItem>, item: CartItem,
                     ghost start: map<string, seq<CartItem>>, ghost counters: map<string, seq<(int, int)>>)
      requires existing == Ids(rows) && item.productId !in Ids(done)
      requires Staging(userId, rows, done, start, counters)
      modifies db, redis
      ensures Staging(userId, rows, done + [item], start, counters)
      ensures redis.master == old(redis.master) && redis.expiry == old(redis.expiry)
    {
      if item.productId in existing {
        RefreshRow(userId, rows, done, item, start, counters);
      } else {
        AddRow(userId, rows, done, item, start, counters);
      }
    }

    /** The update pass meets an item whose product has a row: the row takes the item's fields. */
    method RefreshRow(userId: string, ghost rows: seq<CartItem>, ghost done: seq<CartItem>, item: CartItem,
                      ghost start: map<string, seq<CartItem>>, ghost counters: map<string, seq<(int, int)>>)
      requires Staging(userId, rows, done, start, counters)
      requires item.productId in Ids(rows) && item.productId !in Ids(done)
      modifies db
      ensures Staging(userId, rows, done + [item], start, counters)
    {
      WithoutAppend(done, item, Ids(rows));
      RefreshStep(start, userId, rows, done, item);
      db.UpdateRow(userId, item);
    }

    /** The update pass meets an item whose product has no row: a row is added and the counter rises. */
    method AddRow(userId: string, ghost rows: seq<CartItem>, ghost done: seq<CartItem>, item: CartItem,
                  ghost start: map<string, seq<CartItem>>, ghost counters: map<string, seq<(int, int)>>)
      requires Staging(userId, rows, done, start, counters)
      requires item.productId !in Ids(rows) && item.productId !in Ids(done)
      modifies db, redis
      ensures Staging(userId, rows, done + [item], start, counters)
      ensures redis.master == old(redis.master) && redis.expiry == old(redis.expiry)
    {
      AddStep(start, userId, rows, done, item);
      AddCounted(counters, productStatsKey, rows, done, item);
      db.InsertRow(userId, item);
      redis.IncrementCounter(productStatsKey, item.productId, item.quantity);
    }

    /** The second loop of save_cart, over the rows it found: a row whose product left the cart is deleted. */
    method DeletePass(userId: string, rows: seq<CartItem>, items: seq<CartItem>)
      requires db.Valid() && userId in db.carts
      modifies db
      ensures db.Valid()
      ensures db.carts == old(db.carts)[userId := Without(old(db.carts[userId]), Ids(rows) - Ids(items))]
    {
      var incoming := Ids(items);
      ghost var staged := db.carts[userId];
      DropStart(staged, rows, items);
      var j := 0;
      while j < |rows|
        invariant 0 <= j <= |rows|
        invariant db.Valid()
        invariant db.carts == old(db.carts)[userId := Without(staged, Dropped(rows[..j], items))]
      {
        DropUnlisted(userId, rows[j], incoming, old(db.carts), staged, rows, j, items);
        j := j + 1;
      }
      assert j == |rows|;
      DropEnd(staged, rows, items);
      assert Without(staged, Dropped(rows[..j], items)) == Without(staged, Ids(rows) - Ids(items));
    }

    /** One step of the delete pass: the row is deleted when its product is not in the cart. */
    method DropUnlisted(userId: string, row: CartItem, incoming: set<int>, ghost start: map<string, seq<CartItem>>,
                        ghost staged: seq<CartItem>, ghost rows: seq<CartItem>, ghost j: nat, ghost items: seq<CartItem>)
      requires db.Valid() && j < |rows| && rows[j] == row && incoming == Ids(items)
      requires db.carts == start[userId := Without(staged, Dropped(rows[..j], items))]
      modifies db
      ensures db.Valid()
      ensures db.carts == start[userId := Without(staged, Dropped(rows[..j + 1], items))]
    {
      ghost var before, after := Without(staged, Dropped(rows[..j], items)), Without(staged, Dropped(rows[..j + 1], items));
      DropStep(staged, rows, j, items);
      if row.productId !in incoming {
        assert Without(before, {row.productId}) == after;
        db.DeleteRow(userId, row.productId);
        MapSetTwice(start, userId, before, after);
      } else {
        assert before == after;
      }
    }
  }
}

