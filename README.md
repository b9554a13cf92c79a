# Cart cache-aside layer, modelled in Dafny

The model covers the cart service of a shopping-cart backend. It keeps three
stores in step:

- a Redis cache of cart snapshots, keyed by `prefix + user_id`, written on the
  master and read back through replicas;
- a durable store of cart records: a header row per user, owning item rows keyed
  by product id;
- a Redis hash of popularity counters, one signed integer field per product.

The modules follow the program:

| module | file | models |
|---|---|---|
| `Cache` | cache.dfy | `RedisClient` as a class over the master's string keyspace, the TTLs and the hash keyspace; HINCRBY as `Bump`/`Incremented` on hash snapshots |
| `Ranking` | ranking.dfy | the pure ranking of `get_top_values`: a stable descending sort, then Python's `[:n]` |
| `Carts` | carts.dfy | the cart aggregate, its keyed view and the three cart operations the service relies on |
| `Store` | store.dfy | the durable store as a class: load, create header, update, insert and delete a row, delete a record |
| `Reconciliation` | reconciliation.dfy | what `save_cart`'s two passes do to a record, as functions with their lemmas |
| `Service` | service.dfy | `CartService` as a class over a `RedisClient` and a `CartStore`, with the cache invariant `Mirrors` |
| `Scenarios` | scenarios.dfy | short client sessions proved from the operations' contracts |

The cache-aside invariant is `Mirrors`. Whenever the cache holds a snapshot for
a user, the user has a stored record, and the snapshot holds the same items:
the same product ids with the same name, price and quantity. Every service
operation keeps `Valid()`, which includes `Mirrors`.

Cart contents are compared through `Keyed`, the map from product id to item.
The cache keeps items in cart order. The order in which a record's rows are
read back is modelled as kept rows first, then new rows (see "## Left out").
The two orders can differ, so the service's contracts compare carts only
through `Keyed`.

Counter behaviour follows the code. `save_cart` raises a product's counter when
the product had no row. `add_item` then raises it again. So a product new to the
cart gains twice the item's quantity, and a product already there gains it
once (`Added`, `AddedCount`). Take a counter at 0, add a new product with
quantity 3, update it to 1, then remove it. Net accounting would give 3, 1 and
0. The code gives 6, 4 and 3, as `Scenarios.DeltaExample` proves.

## Model

| member | source | states |
|---|---|---|
| Cache.RedisClient.ChooseReplica | app/cache/redis_client.py:24-27 | the replica chosen is one of the configured replicas |
| Cache.RedisClient.EffectiveExpiry | app/cache/redis_client.py:32 | the TTL used is positive; a positive TTL given is used as is; None and 0 both fall back to the default |
| Cache.RedisClient.SetData | app/cache/redis_client.py:29-32 | the key's value becomes the data and its TTL the effective expiry; no other key, TTL or hash changes |
| Cache.RedisClient.GetData | app/cache/redis_client.py:34-40 | the result is present exactly when the key is stored, and is then the stored value |
| Cache.RedisClient.DeleteData | app/cache/redis_client.py:42-44 | the key and its TTL are gone; every other key and every hash stays |
| Cache.RedisClient.IncrementCounter | app/cache/redis_client.py:46-48 | the hashes become `Incremented` of the old ones; string keys and TTLs stay |
| Cache.CountSpec | app/cache/redis_client.py:46-48 | a field absent from a hash reads as 0; a present field's value is a pair of the hash |
| Cache.BumpSpec | app/cache/redis_client.py:46-48 | HINCRBY raises the field by the amount (from 0 when absent) and no other field; an absent field is appended as the last pair; a present one keeps its position; fields stay distinct |
| Cache.IncrementedCount | app/cache/redis_client.py:46-48 | one HINCRBY moves exactly one counter of one hash, by exactly the amount; other fields and other keys read as before |
| Cache.RedisClient.GetTopValues | app/cache/redis_client.py:50-65 | the result is `TopValues` of the stored hash; it is [] for a missing key; its ids are distinct |
| Ranking.StableSortDesc | app/cache/redis_client.py:58-62 | the result is a permutation of the hash's pairs, non-increasing by value, and keeps the hash's order among equal values |
| Ranking.StableSortUnique | app/cache/redis_client.py:58-62 | any two non-increasing arrangements that keep the order among equal values are equal, so the insertion sort is Python's stable `sorted(..., reverse=True)` |
| Ranking.Take | app/cache/redis_client.py:65 | Python's `[:n]`: a prefix of length min(n, length), or for negative n all but the last -n |
| Ranking.TopValues | app/cache/redis_client.py:52-65 | [] for an empty hash; min(n, number of fields) pairs for n ≥ 0; non-increasing; every pair is a pair of the hash; ids are distinct when the hash's fields are |
| Ranking.TopValuesStable | app/cache/redis_client.py:58-65 | the result's pairs with any given value are a prefix of the hash's pairs with that value, in hash order |
| Ranking.TopValuesDominate | app/cache/redis_client.py:58-65 | a pair left out of the result has a value no greater than any pair in it |
| Ranking.TopTwoExample | app/cache/redis_client.py:50-65 | for {1: 5, 2: 9, 3: 2} the top two are (2, 9) then (1, 5) |
| Carts.AddItem | app/services/cart_service.py:117-118 | the cart's keyed view gains the item at its product id: a new product is appended, an existing entry is replaced; ids stay unique |
| Carts.RemoveItem | app/services/cart_service.py:135 | the keyed view loses the product and nothing else; ids stay unique |
| Carts.UpdateQuantity | app/services/cart_service.py:149 | the flag is true exactly when the product is in the cart; then only that entry's quantity changes to the new one; otherwise the cart is unchanged |
| Store.CartStore.Load | app/services/cart_service.py:47 | a record is found exactly when the user has one, and its rows are the stored rows, with unique ids |
| Store.CartStore.CreateHeader | app/services/cart_service.py:70-74 | a user without a record gets an empty one; no other record changes |
| Store.CartStore.UpdateRow | app/services/cart_service.py:82-86 | the row for the item's product takes the item's name, price and quantity where it stands |
| Store.CartStore.InsertRow | app/services/cart_service.py:88-95 | a row for a product the record lacks is appended |
| Store.CartStore.DeleteRow | app/services/cart_service.py:101-103 | the row for the product is removed from the user's record only |
| Store.CartStore.DeleteCart | app/services/cart_service.py:162-165 | the user's record is removed with all its rows; no other record changes |
| Reconciliation.ReconcileMatchesCart | app/services/cart_service.py:76-103 | after both passes the record holds exactly the cart's items, each with its name, price and quantity, and no product twice |
| Reconciliation.ReconcileOrder | app/services/cart_service.py:80-103 | the kept rows come first in their stored order; new rows follow in cart order |
| Reconciliation.UpdateStep | app/services/cart_service.py:82-86 | the update pass meeting a product with a row updates that row in place |
| Reconciliation.InsertStep | app/services/cart_service.py:87-95 | the update pass meeting a product without a row appends a row for it |
| Reconciliation.DropStep | app/services/cart_service.py:101-103 | the delete pass drops a visited row exactly when its product left the cart |
| Service.CartKey | app/services/cart_service.py:17-19 | the key is the prefix followed by the user id |
| Service.CartKeyInjective | app/services/cart_service.py:17-19 | distinct users have distinct cache keys |
| Service.StatsKeyClash | app/services/cart_service.py:17-19 | some user's cache key equals the stats key exactly when the stats key starts with the cart prefix |
| Service.MirrorWrite | app/services/cart_service.py:61 | caching a cart that holds the user's stored items keeps the cache invariant |
| Service.MirrorClear | app/services/cart_service.py:160-169 | dropping a user's record and cache entry together keeps the cache invariant |
| Service.CartService.GetCart | app/services/cart_service.py:21-65 | on a hit, the cached items, with nothing written; on a miss with a record, the stored rows, then cached with the service TTL; with no record, an empty cart, cached nowhere; in all cases the stored cart's contents and no counter change |
| Service.CartService.SaveCart | app/services/cart_service.py:67-109 | the user's record becomes `Reconcile` of the rows found and the cart, which holds exactly the cart's items; other records stay; the cache entry becomes the cart; the counters are bumped for the cart's products that had no row |
| Service.CartService.Persist | app/services/cart_service.py:69-105 | the store half of save_cart: header created when missing, then both passes; the cache strings stay |
| Service.CartService.UpdatePass | app/services/cart_service.py:80-98 | after the first loop the record is `Staged(rows, items)` and the counters are `BumpEach` over the cart's products that had no row |
| Service.CartService.StageItem | app/services/cart_service.py:81-98 | one turn of the first loop extends `Staging` by one item |
| Service.CartService.RefreshRow | app/services/cart_service.py:82-86 | a product with a row: the row is updated, the counters stay |
| Service.CartService.AddRow | app/services/cart_service.py:87-98 | a product without a row: a row is added and its counter rises by the item's quantity |
| Service.CartService.DeletePass | app/services/cart_service.py:100-103 | after the second loop the record has lost exactly the rows whose products are not in the cart |
| Service.CartService.DropUnlisted | app/services/cart_service.py:101-103 | one turn of the second loop |
| Service.BumpEachCount | app/services/cart_service.py:97-98 | the update pass raises each new product's counter by its quantity and leaves all others |
| Service.AddedFresh | app/services/cart_service.py:97-98 | within add_item, save_cart raises the added product's counter exactly when it had no row |
| Service.CartService.UpdateProductStats | app/services/cart_service.py:111-113 | one HINCRBY on the stats hash; cache strings stay |
| Service.CartService.AddItem | app/services/cart_service.py:115-124 | the stored cart and the cache entry become the read cart with the item put in; the counters become `Added`: twice the quantity for a new product, once for a stored one |
| Service.AddedCount | app/services/cart_service.py:115-124 | `Added` raises a new product's counter by 2×quantity, a stored one's by quantity, and no other counter |
| Service.CartService.SaveAdded | app/services/cart_service.py:115-119 | save_cart inside add_item: the record and cache entry hold the cart; the counters rise by the item's quantity exactly when its product had no row |
| Service.CartService.SaveKnown | app/services/cart_service.py:135-136 | save_cart for a cart with no product the record lacks (remove_item, update_quantity): the record and cache entry hold the cart; no counter moves |
| Service.CartService.RemoveItem | app/services/cart_service.py:126-137 | the stored cart and the cache entry lose the product; the counters become `Debited`; a user without a record gets an empty one |
| Service.CartService.RemoveRead | app/services/cart_service.py:128-137 | remove_item after the read, against the counters and stored cart as found |
| Service.CartService.Debit | app/services/cart_service.py:129-133 | the search loop lowers the product's counter by the quantity the cart held, or not at all when it held none |
| Service.CartService.DebitHeld | app/services/cart_service.py:131-133 | a held product: one HINCRBY by minus the held quantity, giving `Debited` of the counters |
| Service.DebitedCount | app/services/cart_service.py:126-137 | `Debited` lowers the product's counter by its stored quantity (0 when absent) and moves no other counter |
| Service.FirstQuantityKeyed | app/services/cart_service.py:143-147 | in a cart the first entry for a product is its entry, and a product the cart lacks reads as 0 |
| Service.HeldQuantity | app/services/cart_service.py:143-147 | the search loop finds the quantity of the first entry for the product, or 0 when there is none |
| Service.CartService.UpdateQuantity | app/services/cart_service.py:139-158 | None exactly when the stored cart lacks the product, with the store unchanged; otherwise the stored cart and cache entry get the new quantity; in both cases the counters become `Shifted` |
| Service.CartService.UpdateRead | app/services/cart_service.py:140-158 | update_quantity after the read, against the counters and stored cart as found |
| Service.CartService.SaveShifted | app/services/cart_service.py:150-155 | the found case: save_cart, then the counter update |
| Service.CartService.Shift | app/services/cart_service.py:152-155 | the counter moves by the new quantity minus the held one, with no HINCRBY when that is 0 |
| Service.ShiftedCount | app/services/cart_service.py:139-158 | `Shifted` moves the product's counter by new minus held quantity (not at all for an absent product) and no other counter |
| Service.CartService.ClearCart | app/services/cart_service.py:160-169 | the user's record and cache entry are gone (nothing happens to the store without a record); other records, keys and all counters stay |
| Service.CartService.GetTopProducts | app/services/cart_service.py:171-173 | `TopValues` of the stats hash, with distinct product ids |
| Scenarios.SetThenGet | app/cache/redis_client.py:29-40 | a value written with set_data is what get_data returns |
| Scenarios.DeleteThenGet | app/cache/redis_client.py:34-44 | after delete_data the key reads as missing and any other key reads as before |
| Scenarios.ClearThenGet | app/services/cart_service.py:160-169 | after clear_cart, get_cart returns an empty cart |
| Scenarios.GetTwice | app/services/cart_service.py:21-65 | two reads with no write between them return the same cart |
| Scenarios.AddThenRemove | app/services/cart_service.py:115-137 | adding an item then removing its product restores the cart without the product; the counter keeps the quantity for a new product and returns for a stored one |
| Scenarios.AddThenRemoveCount | app/services/cart_service.py:115-137 | the counter arithmetic of add_item followed by remove_item |
| Scenarios.DeltaExample | app/services/cart_service.py:97-98 | a new product added with quantity 3 reads 6, then 4 after update_quantity to 1, then 3 after remove_item |

## Left out

- The cart aggregate's own file (`Cart`, `CartItem`, `to_dict`) is not part of this model. `Carts.AddItem`, `Carts.RemoveItem` and `Carts.UpdateQuantity` give the behaviour the service relies on. Re-adding a product replaces its entry and does not add to its quantity; that is an assumption. So is that `update_quantity` accepts a zero or negative quantity without checking it.
- `CartItem(**item_data)` in `add_item`: the model takes an already-built `CartItem`.
- The database model classes are not part of this model. The store is a map from user id to item rows. Sessions, `flush` and `commit` are not modelled; every write takes effect at once.
- `is_connected`: a network liveness probe.
- The Flask routes, the app factory, the configuration module and the scripts. The prefix, the stats key and the TTL are constructor parameters.
- TTL expiry over time: the model records the TTL each key was set with, but no clock evicts keys.
- JSON encoding and decoding: taken as the identity on cart snapshots. The truthiness tests on `get_data`'s raw string and on the decoded cart always pass for stored snapshots, so they are not modelled.
- Replica lag and random replica choice: replicas mirror the master, and `ChooseReplica` is a nondeterministic choice of index.
- Concurrent writers: every operation runs alone.
- Logging (`cart_service.py:33` and `:46`) and failures: the log calls are not modelled, and neither are the exceptions a Redis or database failure raises. The service catches none of them; since `save_cart` bumps counters (line 98) before its commit (line 105), a failed commit would leave those counters raised.
- String keys and hashes live in two separate maps. In Redis, SET overwrites a key of any type and DEL deletes one, so a cart key equal to the stats key would destroy the counters. The model rules this out: `Service.CartService.constructor` requires that the stats key does not start with the cart prefix, and `Service.StatsKeyClash` shows that this is exactly the condition under which no cart key equals the stats key. The configured `'cart:'` and `'stats:top_products'` meet it.
- The order in which `db_cart.items` returns a record's rows is not stated by the code, which gives no ordering. It is taken to be kept rows first, then new rows. Only `Keyed` views are claimed, except in `Service.CartService.GetCart` (the rows as read) and `Reconciliation.ReconcileOrder`.
- Default arguments are not modelled: `count=10` of `get_top_values` and `get_top_products`, and `amount=1` of `increment_counter`. Every call checked passes explicit values.
- Cache.RedisClient.EffectiveExpiry: requires a given TTL to be non-negative. Redis rejects a negative expiry with an error, which is not modelled; the service always passes its positive TTL.
- Other writers: `Mirrors` holds only while the service is the store's and the cache's only writer. The seeding script deletes every row without touching the cache, which would leave stale snapshots; it is not part of this model.
- Prices are an opaque `real` that is copied and compared, never computed with. Floating point is not modelled.
- Redis hash field order is taken to be creation order, which is what a small Redis hash reports.
- Cache.RedisClient.IncrementCounter: does not model HINCRBY's 64-bit overflow error, because counters are unbounded integers.
- Service.CartService.SaveCart: requires the cart it is given to have unique product ids. Every cart the service saves has them.
- Service.CartService.AddRow: calls the client's `IncrementCounter` directly rather than through `UpdateProductStats`. The effect is identical: one HINCRBY on the stats hash.
- Service.CartService.UpdateProductStats: takes the current counters as a ghost parameter, only to state its result.
- Service.CartService.AddItem: states only that the stored cart, as a keyed view, equals the cart returned. The exact row order is stated on `SaveCart`. The same holds for RemoveItem and UpdateQuantity.
- Service.CartService.UpdateQuantity: when the product is missing, states only that the store and the counters are unchanged. What `get_cart` wrote to the cache is covered by `Valid()`.
